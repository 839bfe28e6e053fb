/** Resolving path names on ext2: a recursive resolver that gives up at the seventh nested
  * symbolic link, and a machine without recursion and without any limit.
  */
module Ext2Path {

  /** An inode, as far as path names go: the bytes that hold a symbolic link's target and how
    * many of them belong to it. */
  datatype Inode = Plain | Link(text: string, len: nat) | Unreadable(code: int)

  datatype Entry = Found(ino: nat) | NotFound(code: int)

  /** The file system: reading an inode, and looking up a name in a directory. */
  datatype Fs = Fs(read: nat -> Inode, lookup: (nat, string) -> Entry)

  datatype Result = Ok(ino: nat) | Loop | Error(code: int)

  /** A link's bytes hold its target. */
  ghost predicate WellFormed(fs: Fs) {
    forall i: nat :: fs.read(i).Link? ==> 0 < |fs.read(i).text| && fs.read(i).len <= |fs.read(i).text|
  }

  const MAX_LINKS: nat := 5

  // ----- Names

  /** The parts of a path name between slashes: at least one. */
  function Split(s: string): (r: seq<string>)
    ensures |r| > 0
  {
    if |s| == 0 then [""]
    else
      var t := Split(s[1..]);
      if s[0] == '/' then [""] + t else [[s[0]] + t[0]] + t[1..]
  }

  lemma {:induction false} SplitNone(s: string)
    requires forall i :: 0 <= i < |s| ==> s[i] != '/'
    ensures Split(s) == [s]
  {
    if |s| > 0 {
      SplitNone(s[1..]);
      assert [s[0]] + s[1..] == s;
    }
  }

  lemma {:induction false} SplitSlash(s: string, i: nat)
    requires i < |s| && s[i] == '/' && forall j :: 0 <= j < i ==> s[j] != '/'
    ensures Split(s) == [s[..i]] + Split(s[i + 1..])
  {
    if i > 0 {
      SplitSlash(s[1..], i - 1);
      assert s[1..][..i - 1] == s[1..i] && s[1..][i..] == s[i + 1..];
      assert [s[0]] + s[1..i] == s[..i];
    }
  }

  /** A leading slash makes a path name absolute, even one of length 0. */
  function Base(root: nat, dir: nat, text: string): nat
    requires |text| > 0
  {
    if text[0] == '/' then root else dir
  }

  /** The path name without that slash. */
  function Relative(text: string, len: nat): string
    requires 0 < |text| && len <= |text|
  {
    if text[0] == '/' then (if len > 0 then text[1..len] else "") else text[..len]
  }

  // ----- The recursive resolver

  /** Resolve the parts `names` in directory `dir`, inside `links` symbolic links. */
  function Resolve(fs: Fs, root: nat, dir: nat, names: seq<string>, follow: bool, links: nat): Result
    requires WellFormed(fs) && |names| > 0 && links <= MAX_LINKS + 1
    decreases MAX_LINKS + 1 - links, 1, |names|
  {
    if |names| == 1 && names[0] == "" then Ok(dir)
    else
      match fs.lookup(dir, names[0])
      case NotFound(code) => Error(code)
      case Found(ino) =>
        if |names| == 1 then
          if follow then FollowLink(fs, root, dir, ino, links) else Ok(ino)
        else
          match FollowLink(fs, root, dir, ino, links)
          case Ok(d) => Resolve(fs, root, d, names[1..], follow, links)
          case e => e
  }

  /** Where the entry `ino` of directory `dir` leads to. */
  function FollowLink(fs: Fs, root: nat, dir: nat, ino: nat, links: nat): Result
    requires WellFormed(fs) && links <= MAX_LINKS + 1
    decreases MAX_LINKS + 1 - links, 0, 0
  {
    match fs.read(ino)
    case Unreadable(code) => Error(code)
    case Plain => Ok(ino)
    case Link(text, len) =>
      if links > MAX_LINKS then Loop
      else Resolve(fs, root, Base(root, dir, text), Split(Relative(text, len)), true, links + 1)
  }

  // ----- The machine

  /** The directory reached, and the parts still to be resolved: of the link being followed
    * first, then of the path names it was met in, the original one last. */
  datatype Config = Config(dir: nat, todo: seq<seq<string>>) | Done(result: Result)

  /** Resolve one part, or leave a link.  Nothing counts the links. */
  function Step(fs: Fs, root: nat, follow: bool, c: Config): Config
    requires WellFormed(fs)
  {
    match c
    case Done(_) => c
    case Config(dir, todo) =>
      if |todo| == 0 then Done(Ok(dir))
      else if |todo[0]| == 0 || todo[0] == [""] then Config(dir, todo[1..])
      else
        match fs.lookup(dir, todo[0][0])
        case NotFound(code) => Done(Error(code))
        case Found(ino) =>
          var rest := [todo[0][1..]] + todo[1..];
          if |todo| == 1 && |todo[0]| == 1 && !follow then Config(ino, rest)
          else
            match fs.read(ino)
            case Unreadable(code) => Done(Error(code))
            case Plain => Config(ino, rest)
            case Link(text, len) => Config(Base(root, dir, text), [Split(Relative(text, len))] + rest)
  }

  /** The machine is inside a seventh nested link. */
  predicate TooDeep(c: Config) {
    c.Config? && |c.todo| > 7
  }

  /** `c` gets to `d` in `n` steps and is never too deep before. */
  predicate GetsIn(fs: Fs, root: nat, follow: bool, c: Config, d: Config, n: nat)
    requires WellFormed(fs)
    decreases n
  {
    if n == 0 then c == d
    else c.Config? && !TooDeep(c) && GetsIn(fs, root, follow, Step(fs, root, follow, c), d, n - 1)
  }

  ghost predicate Gets(fs: Fs, root: nat, follow: bool, c: Config, d: Config)
    requires WellFormed(fs)
  {
    exists n: nat :: GetsIn(fs, root, follow, c, d, n)
  }

  /** `c` gets into a seventh nested link. */
  ghost predicate GetsDeep(fs: Fs, root: nat, follow: bool, c: Config)
    requires WellFormed(fs)
  {
    exists d :: TooDeep(d) && Gets(fs, root, follow, c, d)
  }

  lemma {:induction false} GetsInAdd(fs: Fs, root: nat, follow: bool, c: Config, d: Config, e: Config, m: nat, n: nat)
    requires WellFormed(fs) && GetsIn(fs, root, follow, c, d, m) && GetsIn(fs, root, follow, d, e, n)
    ensures GetsIn(fs, root, follow, c, e, m + n)
    decreases m
  {
    if m > 0 { GetsInAdd(fs, root, follow, Step(fs, root, follow, c), d, e, m - 1, n); }
  }

  lemma GetsTrans(fs: Fs, root: nat, follow: bool, c: Config, d: Config, e: Config)
    requires WellFormed(fs) && Gets(fs, root, follow, c, d) && Gets(fs, root, follow, d, e)
    ensures Gets(fs, root, follow, c, e)
  {
    var m: nat :| GetsIn(fs, root, follow, c, d, m);
    var n: nat :| GetsIn(fs, root, follow, d, e, n);
    GetsInAdd(fs, root, follow, c, d, e, m, n);
  }

  lemma GetsOne(fs: Fs, root: nat, follow: bool, c: Config)
    requires WellFormed(fs) && c.Config? && !TooDeep(c)
    ensures Gets(fs, root, follow, c, Step(fs, root, follow, c)) && Gets(fs, root, follow, c, c)
  {
    assert GetsIn(fs, root, follow, Step(fs, root, follow, c), Step(fs, root, follow, c), 0);
    assert GetsIn(fs, root, follow, c, Step(fs, root, follow, c), 1);
    assert GetsIn(fs, root, follow, c, c, 0);
  }

  lemma GetsDeepLater(fs: Fs, root: nat, follow: bool, c: Config, d: Config)
    requires WellFormed(fs) && Gets(fs, root, follow, c, d) && GetsDeep(fs, root, follow, d)
    ensures GetsDeep(fs, root, follow, c)
  {
    var e :| TooDeep(e) && Gets(fs, root, follow, d, e);
    GetsTrans(fs, root, follow, c, d, e);
  }

  /** What the machine does where the resolver returns `r`, `below` being left to do. */
  ghost predicate Agrees(fs: Fs, root: nat, follow: bool, c: Config, r: Result, below: seq<seq<string>>)
    requires WellFormed(fs)
  {
    match r
    case Ok(ino) => Gets(fs, root, follow, c, Config(ino, below))
    case Error(_) => Gets(fs, root, follow, c, Done(r))
    case Loop => GetsDeep(fs, root, follow, c)
  }

  lemma AgreesLater(fs: Fs, root: nat, follow: bool, c: Config, d: Config, r: Result, below: seq<seq<string>>)
    requires WellFormed(fs) && Gets(fs, root, follow, c, d) && Agrees(fs, root, follow, d, r, below)
    ensures Agrees(fs, root, follow, c, r, below)
  {
    hide Gets, GetsDeep;
    match r {
      case Ok(ino) => GetsTrans(fs, root, follow, c, d, Config(ino, below));
      case Error(_) => GetsTrans(fs, root, follow, c, d, Done(r));
      case Loop => GetsDeepLater(fs, root, follow, c, d);
    }
  }

  /** The machine follows an entry like the resolver. */
  lemma {:induction false} FollowAgrees(fs: Fs, root: nat, follow: bool, dir: nat, ino: nat, names: seq<string>, below: seq<seq<string>>)
    requires WellFormed(fs) && |below| <= MAX_LINKS + 1 && |names| > 0 && names != [""]
    requires fs.lookup(dir, names[0]) == Found(ino)
    requires |below| == 0 && |names| == 1 ==> follow
    ensures Agrees(fs, root, follow, Config(dir, [names] + below), FollowLink(fs, root, dir, ino, |below|), [names[1..]] + below)
    decreases MAX_LINKS + 1 - |below|, 0, 0
  {
    hide Resolve, Gets, GetsIn, Split, Relative;
    var c := Config(dir, [names] + below);
    var rest := [names[1..]] + below;
    assert c.todo[1..] == below;
    GetsOne(fs, root, follow, c);
    var d := Step(fs, root, follow, c);
    match fs.read(ino) {
      case Unreadable(_) =>
      case Plain =>
      case Link(text, len) =>
        var inner := Split(Relative(text, len));
        assert d == Config(Base(root, dir, text), [inner] + rest);
        if |below| > MAX_LINKS {
          assert TooDeep(d);
        } else {
          ResolveAgrees(fs, root, follow, Base(root, dir, text), inner, true, rest);
          AgreesLater(fs, root, follow, c, d, FollowLink(fs, root, dir, ino, |below|), rest);
        }
    }
  }

  /** The machine resolves a path name like the resolver. */
  lemma {:induction false} ResolveAgrees(fs: Fs, root: nat, follow: bool, dir: nat, names: seq<string>, follow': bool, below: seq<seq<string>>)
    requires WellFormed(fs) && |below| <= MAX_LINKS + 1 && |names| > 0
    requires follow' == (|below| > 0 || follow)
    ensures Agrees(fs, root, follow, Config(dir, [names] + below), Resolve(fs, root, dir, names, follow', |below|), below)
    decreases MAX_LINKS + 1 - |below|, 1, |names|
  {
    hide Gets, GetsIn, GetsDeep, FollowLink;
    var c := Config(dir, [names] + below);
    var rest := [names[1..]] + below;
    assert c.todo[1..] == below;
    GetsOne(fs, root, follow, c);
    if names != [""] {
      match fs.lookup(dir, names[0]) {
        case NotFound(_) =>
        case Found(ino) =>
          if |names| == 1 {
            assert names[1..] == [];
            if follow' {
              FollowAgrees(fs, root, follow, dir, ino, names, below);
              var r := FollowLink(fs, root, dir, ino, |below|);
              if r.Ok? { LeaveFrame(fs, root, follow, c, r.ino, below); }
            } else {
              LeaveFrame(fs, root, follow, c, ino, below);
            }
          } else {
            FollowAgrees(fs, root, follow, dir, ino, names, below);
            var r := FollowLink(fs, root, dir, ino, |below|);
            if r.Ok? {
              ResolveAgrees(fs, root, follow, r.ino, names[1..], follow', below);
              AgreesLater(fs, root, follow, c, Config(r.ino, rest), Resolve(fs, root, dir, names, follow', |below|), below);
            }
          }
      }
    }
  }

  /** A path name with no parts left is done. */
  lemma LeaveFrame(fs: Fs, root: nat, follow: bool, c: Config, dir: nat, below: seq<seq<string>>)
    requires WellFormed(fs) && |below| <= MAX_LINKS + 1
    requires Gets(fs, root, follow, c, Config(dir, [[]] + below))
    ensures Gets(fs, root, follow, c, Config(dir, below))
  {
    hide Gets;
    var d := Config(dir, [[]] + below);
    assert d.todo[1..] == below;
    GetsOne(fs, root, follow, d);
    GetsTrans(fs, root, follow, c, d, Config(dir, below));
  }

  // ----- Where path names start

  /** An absolute path name resolves to the same from every directory: to what its parts after that slash
    * resolve to from the root, a further slash being an empty part. */
  lemma AbsoluteName(fs: Fs, root: nat, base: nat, text: string, len: nat, follow: bool)
    requires WellFormed(fs) && 0 < len <= |text| && text[0] == '/'
    ensures Start(root, base, text, len) == Config(root, [Split(text[1..len])])
    ensures forall dir :: ResolvePath(fs, root, base, text, len, follow) == ResolvePath(fs, root, dir, text, len, follow)
    ensures ResolvePath(fs, root, base, text, len, follow) == Resolve(fs, root, root, Split(text[1..len]), follow, 0)
    ensures len > 1 && text[1] != '/' ==>
              ResolvePath(fs, root, base, text, len, follow) == ResolvePath(fs, root, root, text[1..], len - 1, follow)
  {
    hide Split, Resolve;
    if len > 1 && text[1] != '/' { assert text[1..][..len - 1] == text[1..len]; }
  }

  /** Any other starts where it is resolved. */
  lemma RelativeName(fs: Fs, root: nat, base: nat, text: string, len: nat, follow: bool)
    requires WellFormed(fs) && 0 < |text| && len <= |text| && text[0] != '/'
    ensures Start(root, base, text, len) == Config(base, [Split(text[..len])])
    ensures ResolvePath(fs, root, base, text, len, follow) == Resolve(fs, root, base, Split(text[..len]), follow, 0)
  {
    hide Split, Resolve;
  }

  /** The same for the targets of links, which start in the directory that the link is in. */
  lemma LinkTarget(fs: Fs, root: nat, dir: nat, name: string, ino: nat, links: nat)
    requires WellFormed(fs) && links <= 5 && fs.read(ino).Link? && fs.lookup(dir, name) == Found(ino)
    requires 0 < fs.read(ino).len && name != ""
    ensures var Link(text, len) := fs.read(ino);
            var (start, names) := if text[0] == '/' then (root, text[1..len]) else (dir, text[..len]);
            && FollowLink(fs, root, dir, ino, links) == Resolve(fs, root, start, Split(names), true, links + 1)
            && Step(fs, root, true, Config(dir, [[name]])) == Config(start, [Split(names), []])
  {
    hide Split, Resolve;
    assert [[name]][0][1..] == [] && [[name]][1..] == [];
  }

  // ----- The main results

  function Start(root: nat, base: nat, text: string, len: nat): Config
    requires 0 < |text| && len <= |text|
  {
    Config(Base(root, base, text), [Split(Relative(text, len))])
  }

  function ResolvePath(fs: Fs, root: nat, base: nat, text: string, len: nat, follow: bool): Result
    requires WellFormed(fs) && 0 < |text| && len <= |text|
  {
    Resolve(fs, root, Base(root, base, text), Split(Relative(text, len)), follow, 0)
  }

  /** Every path name resolves, on every file system, to what the machine without a limit ends
    * with, unless that gets into a seventh nested link; then a loop is reported. */
  lemma ResolverIsMachine(fs: Fs, root: nat, base: nat, text: string, len: nat, follow: bool)
    requires WellFormed(fs) && 0 < |text| && len <= |text|
    ensures var r := ResolvePath(fs, root, base, text, len, follow);
            var c := Start(root, base, text, len);
            if r == Loop then GetsDeep(fs, root, follow, c) else Gets(fs, root, follow, c, Done(r))
  {
    hide Gets, GetsDeep, GetsIn, Split, Relative;
    var c := Start(root, base, text, len);
    var r := ResolvePath(fs, root, base, text, len, follow);
    var names := Split(Relative(text, len));
    assert [names] + [] == [names];
    ResolveAgrees(fs, root, follow, Base(root, base, text), names, follow, []);
    if r.Ok? {
      GetsOne(fs, root, follow, Config(r.ino, []));
      GetsTrans(fs, root, follow, c, Config(r.ino, []), Done(r));
    }
  }

  /** The machine is deterministic: it cannot both end and get too deep. */
  lemma {:induction false} NotBoth(fs: Fs, root: nat, follow: bool, c: Config, r: Result, d: Config, m: nat, n: nat)
    requires WellFormed(fs) && GetsIn(fs, root, follow, c, Done(r), m) && GetsIn(fs, root, follow, c, d, n) && d.Config?
    ensures n < m && !TooDeep(d)
    decreases m
  {
    if n > 0 { NotBoth(fs, root, follow, Step(fs, root, follow, c), r, d, m - 1, n - 1); }
  }

  /** A symbolic link loop is reported exactly when a seventh nested link is reached. */
  lemma LoopExactly(fs: Fs, root: nat, base: nat, text: string, len: nat, follow: bool)
    requires WellFormed(fs) && 0 < |text| && len <= |text|
    ensures ResolvePath(fs, root, base, text, len, follow) == Loop <==> GetsDeep(fs, root, follow, Start(root, base, text, len))
  {
    hide GetsIn, Start, ResolvePath, Step;
    var c := Start(root, base, text, len);
    var r := ResolvePath(fs, root, base, text, len, follow);
    ResolverIsMachine(fs, root, base, text, len, follow);
    if r != Loop && GetsDeep(fs, root, follow, c) {
      var d :| TooDeep(d) && Gets(fs, root, follow, c, d);
      var m: nat :| GetsIn(fs, root, follow, c, Done(r), m);
      var n: nat :| GetsIn(fs, root, follow, c, d, n);
      NotBoth(fs, root, follow, c, r, d, m, n);
    }
  }
}
