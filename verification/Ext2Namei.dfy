/** Directory lookup operations on ext2. */
module Ext2Namei {
  import opened Ext2Path

  class Namei {
    const fs: Fs

    constructor (fs: Fs)
      ensures this.fs == fs
    {
      this.fs := fs;
    }

    method FollowLink(root: nat, dir: nat, inode: nat, linkCount: nat) returns (r: Result)
      requires WellFormed(fs) && linkCount <= MAX_LINKS + 1
      ensures r == Ext2Path.FollowLink(fs, root, dir, inode, linkCount)
      decreases MAX_LINKS + 1 - linkCount, 0
    {
      match fs.read(inode) {
        case Unreadable(code) => r := Error(code);
        case Plain => r := Ok(inode);
        case Link(text, len) =>
          if linkCount > MAX_LINKS {
            return Loop;
          }
          r := OpenNamei(root, dir, text, len, true, linkCount + 1);
      }
    }

    /** The directory a path name's last part is in, and that part. */
    method DirNamei(root: nat, base: nat, pathname: string, pathlen: nat, linkCount: nat, ghost follow: bool) returns (r: Result, name: string)
      requires WellFormed(fs) && linkCount <= MAX_LINKS + 1
      requires 0 < |pathname| && pathlen <= |pathname|
      ensures (if pathname[0] == '/' then Resolve(fs, root, root, Split(if pathlen > 0 then pathname[1..pathlen] else ""), follow, linkCount)
               else Resolve(fs, root, base, Split(pathname[..pathlen]), follow, linkCount))
              == if r.Ok? then Resolve(fs, root, r.ino, [name], follow, linkCount) else r
      decreases MAX_LINKS + 1 - linkCount, 1
    {
      hide Split;
      var dir, p, n: int := base, 0, pathlen;
      if pathname[0] == '/' {
        dir, p, n := root, 1, n - 1;
      }
      ghost var start, whole := dir, Relative(pathname, pathlen);
      assert whole == if n > 0 then pathname[p..p + n] else "";
      while true
        invariant 0 <= p <= |pathname| && -1 <= n && p + n <= |pathname|
        invariant var left := if n > 0 then pathname[p..p + n] else "";
                  Resolve(fs, root, start, Split(whole), follow, linkCount)
                  == Resolve(fs, root, dir, Split(left), follow, linkCount)
        decreases n
      {
        ghost var left := if n > 0 then pathname[p..p + n] else "";
        var found, len, p', n' := NextPart(pathname, p, n);
        name := pathname[p..p + len];
        if !found {
          assert name == left;
          SplitNone(left);
          return Ok(dir), name;
        }
        SplitSlash(left, len);
        assert left[..len] == name;
        assert left[len + 1..] == if n' > 0 then pathname[p'..p' + n'] else "";
        match fs.lookup(dir, name) {
          case NotFound(code) =>
            return Error(code), name;
          case Found(inode) =>
            r := FollowLink(root, dir, inode, linkCount);
            if !r.Ok? {
              return;
            }
            dir := r.ino;
        }
        p, n := p', n';
      }
    }

    /** Open a path name. */
    method OpenNamei(root: nat, base: nat, pathname: string, pathlen: nat, follow: bool, linkCount: nat) returns (r: Result)
      requires WellFormed(fs) && linkCount <= MAX_LINKS + 1
      requires 0 < |pathname| && pathlen <= |pathname|
      ensures r == if pathname[0] == '/' then Resolve(fs, root, root, Split(if pathlen > 0 then pathname[1..pathlen] else ""), follow, linkCount)
                   else Resolve(fs, root, base, Split(pathname[..pathlen]), follow, linkCount)
      decreases MAX_LINKS + 1 - linkCount, 2
    {
      var basename;
      r, basename := DirNamei(root, base, pathname, pathlen, linkCount, follow);
      if !r.Ok? || |basename| == 0 {
        return;
      }
      var dir := r.ino;
      match fs.lookup(dir, basename) {
        case NotFound(code) =>
          r := Error(code);
        case Found(inode) =>
          if follow {
            r := FollowLink(root, dir, inode, linkCount);
          } else {
            r := Ok(inode);
          }
      }
    }

    /** Resolve a path name, its last part included. */
    method NameiFollow(root: nat, cwd: nat, name: string) returns (r: Result)
      requires WellFormed(fs)
      ensures r == ResolvePath(fs, root, cwd, name + [0 as char], |name|, true)
      ensures r == if |name| > 0 && name[0] == '/' then Resolve(fs, root, root, Split(name[1..]), true, 0)
                   else Resolve(fs, root, cwd, Split(name), true, 0)
    {
      Terminated(name);
      r := OpenNamei(root, cwd, name + [0 as char], |name|, true, 0);
    }

    /** Resolve a path name; a symbolic link as its last part is not followed. */
    method NameiNoFollow(root: nat, cwd: nat, name: string) returns (r: Result)
      requires WellFormed(fs)
      ensures r == ResolvePath(fs, root, cwd, name + [0 as char], |name|, false)
      ensures r == if |name| > 0 && name[0] == '/' then Resolve(fs, root, root, Split(name[1..]), false, 0)
                   else Resolve(fs, root, cwd, Split(name), false, 0)
    {
      Terminated(name);
      r := OpenNamei(root, cwd, name + [0 as char], |name|, false, 0);
    }
  }

  lemma Terminated(name: string)
    ensures var text := name + [0 as char]; text[..|name|] == name && (|name| > 0 ==> text[0] == name[0] && text[1..|name|] == name[1..])
  {
  }

  /** Find the end of the part of a path name that starts at `p`, `n` characters being left. */
  method NextPart(pathname: string, p: nat, n: int) returns (found: bool, len: nat, p': nat, n': int)
    requires -1 <= n && p <= |pathname| && p + n <= |pathname|
    ensures p + len <= |pathname| && len <= (if n > 0 then n else 0)
    ensures forall i :: p <= i < p + len ==> pathname[i] != '/'
    ensures found ==> len < n && pathname[p + len] == '/' && p' == p + len + 1 && n' == n - len - 1
    ensures !found ==> len == if n > 0 then n else 0
  {
    len, p', n' := 0, p, n - 1;
    while n' >= 0
      invariant p' == p + len && n' == n - len - 1
      invariant (n > 0 ==> len <= n) && (n <= 0 ==> len == 0)
      invariant forall i :: p <= i < p + len ==> pathname[i] != '/'
      decreases n'
    {
      var c := pathname[p'];
      p' := p' + 1;
      if c == '/' {
        return true, len, p', n';
      }
      len, n' := len + 1, n' - 1;
    }
    found := false;
  }
}
