/** Reading and writing single inodes of an ext2 file system, through a cache of four inodes and a
  * buffer of one block.
  */
module Ext2Inode {
  import opened Bits
  import opened Ext2File
  import opened Ext2Disk

  const CACHE_SIZE: nat := 4

  datatype Failure = BadInodeNum | MissingInodeTable | ReadOnly

  datatype ReadResult = Got(inode: seq<byte>) | ReadFailed(why: Failure)

  datatype WriteResult = Written | WriteFailed(why: Failure)

  /** What reading an inode without any cache gives. */
  function DirectRead(l: Layout, disk: Disk, ino: nat): ReadResult
    requires WfLayout(l) && BlockSized(disk, l.bs) && ino > 0
  {
    if ino > l.count then ReadFailed(BadInodeNum)
    else if !HasTable(l, ino) then ReadFailed(MissingInodeTable)
    else Got(Decode(l, disk, ino))
  }

  /** The inode read is found by counting from 1: in the table of its group, after those before it. */
  lemma DirectReadIs(l: Layout, disk: Disk, ino: nat)
    requires WfLayout(l) && BlockSized(disk, l.bs) && 0 < ino <= l.count
    ensures var g, k := (ino - 1) / l.perGroup, (ino - 1) % l.perGroup;
            && g < |l.tables|
            && DirectRead(l, disk, ino) == if l.tables[g] == 0 then ReadFailed(MissingInodeTable)
                                           else Got(BytesOn(disk, l.bs, l.bs * l.tables[g] + l.inodeSize * k, 128))
  {
    AddressIs(l, ino);
  }

  /** So is the place where it is written. */
  ghost predicate WrittenThere(l: Layout, disk: Disk, disk': Disk, ino: nat, inode: seq<byte>)
    requires WfLayout(l) && BlockSized(disk, l.bs) && BlockSized(disk', l.bs) && ino > 0
  {
    var g, k := (ino - 1) / l.perGroup, (ino - 1) % l.perGroup;
    && g < |l.tables| && l.tables[g] != 0
    && Wrote(disk, disk', l.bs, l.bs * l.tables[g] + l.inodeSize * k, inode)
  }

  lemma WrittenThereIs(l: Layout, disk: Disk, disk': Disk, ino: nat, inode: seq<byte>)
    requires WfLayout(l) && BlockSized(disk, l.bs) && BlockSized(disk', l.bs) && 0 < ino <= l.count && HasTable(l, ino)
    requires Wrote(disk, disk', l.bs, Address(l, ino), inode)
    ensures WrittenThere(l, disk, disk', ino, inode)
  {
    hide Wrote;
    AddressIs(l, ino);
  }

  class InodeCache {
    const layout: Layout
    const writable: bool
    var disk: Disk

    /** Whether the cache has been created. */
    var created: bool

    const buffer: array<byte>
    var bufferBlk: nat
    const cacheIno: array<nat>
    const cacheInode: array<seq<byte>>
    var cacheLast: int

    /** The sizes are right, and the buffer holds the block it says. */
    ghost predicate Buffered()
      reads this, buffer
    {
      && WfLayout(layout) && BlockSized(disk, layout.bs)
      && buffer.Length == layout.bs
      && cacheIno.Length == cacheInode.Length == CACHE_SIZE
      && -1 <= cacheLast < CACHE_SIZE
      && (bufferBlk != 0 ==> buffer[..] == disk(bufferBlk))
    }

    /** Every entry of the cache is empty or holds an inode as it is on disk `d`. */
    ghost predicate EntriesOK(d: Disk)
      requires WfLayout(layout) && BlockSized(d, layout.bs)
      requires cacheIno.Length == cacheInode.Length == CACHE_SIZE
      reads cacheIno, cacheInode
    {
      forall i :: 0 <= i < CACHE_SIZE && cacheIno[i] != 0 ==>
        cacheIno[i] <= layout.count && HasTable(layout, cacheIno[i]) && cacheInode[i] == Decode(layout, d, cacheIno[i])
    }

    /** No inode is in the cache twice. */
    ghost predicate Distinct()
      reads cacheIno
    {
      forall i, j :: 0 <= i < j < cacheIno.Length && cacheIno[i] != 0 ==> cacheIno[i] != cacheIno[j]
    }

    ghost predicate Valid()
      reads this, buffer, cacheIno, cacheInode
    {
      Buffered() && Distinct() && EntriesOK(disk)
    }

    /** Nothing is cached yet. */
    constructor (layout: Layout, disk: Disk, writable: bool)
      requires WfLayout(layout) && BlockSized(disk, layout.bs)
      ensures Valid() && this.layout == layout && this.disk == disk && this.writable == writable
      ensures fresh(buffer) && fresh(cacheIno) && fresh(cacheInode)
    {
      this.layout, this.disk, this.writable := layout, disk, writable;
      created, bufferBlk, cacheLast := false, 0, -1;
      buffer := new byte[layout.bs](_ => 0);
      cacheIno := new nat[CACHE_SIZE](_ => 0);
      cacheInode := new seq<byte>[CACHE_SIZE](_ => []);
    }

    method FlushIcache()
      requires Valid()
      modifies this`bufferBlk, cacheIno
      ensures Valid() && (created ==> forall i :: 0 <= i < CACHE_SIZE ==> cacheIno[i] == 0)
    {
      if !created {
        return;
      }
      var i := 0;
      while i < CACHE_SIZE
        invariant 0 <= i <= CACHE_SIZE && Valid()
        invariant forall j :: 0 <= j < i ==> cacheIno[j] == 0
      {
        cacheIno[i] := 0;
        i := i + 1;
      }
      bufferBlk := 0;
    }

    method CreateIcache()
      requires Valid()
      modifies this`created, this`bufferBlk, this`cacheLast, cacheIno
      ensures Valid() && created && (!old(created) ==> forall i :: 0 <= i < CACHE_SIZE ==> cacheIno[i] == 0)
    {
      if created {
        return;
      }
      cacheLast, created := -1, true;
      FlushIcache();
    }

    /** Find an inode in the cache. */
    method Find(ino: nat) returns (i: nat)
      requires cacheIno.Length == CACHE_SIZE
      ensures i <= CACHE_SIZE && (i < CACHE_SIZE ==> cacheIno[i] == ino)
      ensures forall j :: 0 <= j < i ==> cacheIno[j] != ino
    {
      i := 0;
      while i < CACHE_SIZE
        invariant 0 <= i <= CACHE_SIZE
        invariant forall j :: 0 <= j < i ==> cacheIno[j] != ino
      {
        if cacheIno[i] == ino {
          return;
        }
        i := i + 1;
      }
    }

    /** Have a block of the disk in the buffer. */
    method LoadBlock(blockNr: nat)
      requires Buffered() && blockNr != 0
      modifies this`bufferBlk, buffer
      ensures Buffered() && bufferBlk == blockNr
    {
      if blockNr != bufferBlk {
        var block := disk(blockNr);
        forall k | 0 <= k < buffer.Length { buffer[k] := block[k]; }
        assert buffer[..] == block;
        bufferBlk := blockNr;
      }
    }

    /** The block an inode starts in, and its offset there. */
    method Locate(ino: nat) returns (blockNr: nat, offset: nat)
      requires WfLayout(layout) && 0 < ino <= layout.count && HasTable(layout, ino)
      ensures blockNr != 0 && offset < layout.bs && Size(layout.bs, blockNr) + offset == Address(layout, ino)
    {
      var group := BlockOf(layout.perGroup, ino - 1);
      var byteOffset := Size(layout.inodeSize, ino - 1 - Size(layout.perGroup, group));
      var block := BlockOf(layout.bs, byteOffset);
      blockNr := layout.tables[group] + block;
      offset := byteOffset - Size(layout.bs, block);
      SizeAdd(layout.bs, layout.tables[group], block);
    }

    /** Read an inode's bytes from the disk. */
    method Fetch(ino: nat) returns (inode: seq<byte>)
      requires Buffered() && 0 < ino <= layout.count && HasTable(layout, ino)
      modifies this`bufferBlk, buffer
      ensures Buffered() && inode == Decode(layout, disk, ino)
    {
      hide Size, BlockOf, Address, BytesOn, HasTable, WfLayout;
      var bs := layout.bs;
      var blockNr: nat, offset: nat := Locate(ino);
      ghost var a := Address(layout, ino);
      var length := INODE_BYTES;
      inode := [];
      BytesNone(disk, bs, a);
      while length > 0
        invariant Buffered() && length + |inode| == INODE_BYTES && 0 <= length
        invariant length > 0 ==> blockNr != 0 && offset < bs && Size(bs, blockNr) + offset == a + |inode|
        invariant inode == BytesOn(disk, bs, a, |inode|)
      {
        var clen := length;
        if offset + length > bs {
          clen := bs - offset;
        }
        LoadBlock(blockNr);
        InBlock(disk, bs, blockNr, offset, clen);
        BytesConcat(disk, bs, a, |inode|, clen);
        SizeUp(bs, blockNr);
        inode := inode + buffer[offset..offset + clen];
        offset := 0;
        length := length - clen;
        blockNr := blockNr + 1;
      }
      DecodeIs(layout, disk, ino);
    }

    /** Read an inode. */
    method ReadInode(ino: nat) returns (r: ReadResult)
      requires Valid() && ino > 0
      modifies this`created, this`bufferBlk, this`cacheLast, buffer, cacheIno, cacheInode
      ensures Valid()
      ensures r == DirectRead(layout, disk, ino)
    {
      hide WfLayout, HasTable, Decode, Group;
      CreateIcache();
      var i := Find(ino);
      if i < CACHE_SIZE {
        return Got(cacheInode[i]);
      }
      if ino > layout.count {
        return ReadFailed(BadInodeNum);
      }
      var missing := NoTable(ino);
      if missing {
        return ReadFailed(MissingInodeTable);
      }
      var inode := Fetch(ino);
      Remember(ino, inode);
      r := Got(inode);
    }

    /** Put an inode in the next place of the cache. */
    method Remember(ino: nat, inode: seq<byte>)
      requires Valid() && 0 < ino <= layout.count && HasTable(layout, ino) && inode == Decode(layout, disk, ino)
      requires forall i :: 0 <= i < CACHE_SIZE ==> cacheIno[i] != ino
      modifies this`cacheLast, cacheIno, cacheInode
      ensures Valid()
    {
      hide WfLayout, HasTable, Decode;
      cacheLast := (cacheLast + 1) % CACHE_SIZE;
      cacheIno[cacheLast] := ino;
      cacheInode[cacheLast] := inode;
    }

    /** Replace some bytes of a block on the disk. */
    method WritePart(blockNr: nat, offset: nat, part: seq<byte>)
      requires Buffered() && blockNr != 0 && offset + |part| <= layout.bs
      modifies this`bufferBlk, this`disk, buffer
      ensures Buffered()
      ensures Wrote(old(disk), disk, layout.bs, Size(layout.bs, blockNr) + offset, part)
    {
      hide WfLayout, Size, Wrote;
      LoadBlock(blockNr);
      ghost var block := buffer[..];
      forall k | 0 <= k < |part| { buffer[offset + k] := part[k]; }
      assert buffer[..] == Patched(block, offset, part);
      PatchWrites(disk, layout.bs, blockNr, offset, part);
      var whole := buffer[..];
      disk := WithBlock(disk, blockNr, whole);
    }

    /** Write an inode's bytes to the disk. */
    method StoreInode(ino: nat, inode: seq<byte>)
      requires Buffered() && 0 < ino <= layout.count && HasTable(layout, ino) && |inode| == INODE_BYTES
      modifies this`bufferBlk, this`disk, buffer
      ensures Buffered() && Wrote(old(disk), disk, layout.bs, Address(layout, ino), inode)
    {
      hide Size, BlockOf, Address, HasTable, WfLayout, Wrote;
      var bs := layout.bs;
      var blockNr: nat, offset: nat := Locate(ino);
      ghost var a := Address(layout, ino);
      var length, done := INODE_BYTES, 0;
      WroteNothing(disk, bs, a);
      while length > 0
        invariant Buffered() && length + done == INODE_BYTES && 0 <= done && 0 <= length
        invariant length > 0 ==> blockNr != 0 && offset < bs && Size(bs, blockNr) + offset == a + done
        invariant Wrote(old(disk), disk, bs, a, inode[..done])
      {
        var clen := length;
        if offset + length > bs {
          clen := bs - offset;
        }
        ghost var before := disk;
        WritePart(blockNr, offset, inode[done..done + clen]);
        WroteMore(old(disk), before, disk, bs, a, inode[..done], inode[done..done + clen]);
        assert inode[..done] + inode[done..done + clen] == inode[..done + clen];
        SizeUp(bs, blockNr);
        offset := 0;
        done := done + clen;
        length := length - clen;
        blockNr := blockNr + 1;
      }
      assert inode[..done] == inode;
    }

    /** Inode `ino` has been replaced in the cache. */
    ghost predicate Replaced(d: Disk, ino: nat, inode: seq<byte>)
      requires WfLayout(layout) && BlockSized(d, layout.bs)
      requires cacheIno.Length == cacheInode.Length == CACHE_SIZE
      reads cacheIno, cacheInode
    {
      forall i :: 0 <= i < CACHE_SIZE && cacheIno[i] != 0 ==>
        && cacheIno[i] <= layout.count && HasTable(layout, cacheIno[i])
        && cacheInode[i] == if cacheIno[i] == ino then inode else Decode(layout, d, cacheIno[i])
    }

    lemma ReplacedElsewhere(d: Disk, ino: nat, inode: seq<byte>)
      requires WfLayout(layout) && BlockSized(d, layout.bs) && cacheIno.Length == cacheInode.Length == CACHE_SIZE
      requires Replaced(d, ino, inode)
      requires 0 < ino && (ino > layout.count || !HasTable(layout, ino))
      ensures EntriesOK(d)
    {
      hide WfLayout, HasTable, Decode;
    }

    lemma ReplacedWritten(d: Disk, d': Disk, ino: nat, inode: seq<byte>)
      requires WfLayout(layout) && BlockSized(d, layout.bs) && BlockSized(d', layout.bs)
      requires cacheIno.Length == cacheInode.Length == CACHE_SIZE
      requires Replaced(d, ino, inode) && 0 < ino <= layout.count && HasTable(layout, ino) && |inode| == INODE_BYTES
      requires Wrote(d, d', layout.bs, Address(layout, ino), inode)
      ensures EntriesOK(d')
    {
      hide WfLayout, HasTable, Decode, Wrote, Address;
      forall i | 0 <= i < CACHE_SIZE && cacheIno[i] != 0
        ensures cacheIno[i] <= layout.count && HasTable(layout, cacheIno[i]) && cacheInode[i] == Decode(layout, d', cacheIno[i])
      {
        WriteDecode(layout, d, d', ino, inode, cacheIno[i]);
      }
    }

    /** Write an inode. */
    method WriteInode(ino: nat, inode: seq<byte>) returns (r: WriteResult)
      requires Valid() && ino > 0 && |inode| == INODE_BYTES
      modifies this`created, this`bufferBlk, this`cacheLast, this`disk, buffer, cacheIno, cacheInode
      ensures writable ==> Valid()
      // on a read-only file system the cache nevertheless shows the inode as written
      ensures !writable ==> Buffered() && Distinct() && Replaced(disk, ino, inode)
      ensures r == if !writable then WriteFailed(ReadOnly)
                   else if ino > layout.count then WriteFailed(BadInodeNum)
                   else if !HasTable(layout, ino) then WriteFailed(MissingInodeTable)
                   else Written
      ensures r == Written ==> Buffered() && Wrote(old(disk), disk, layout.bs, Address(layout, ino), inode)
      ensures r == Written ==> WrittenThere(layout, old(disk), disk, ino, inode)
      ensures r != Written ==> disk == old(disk)
    {
      hide WfLayout, HasTable, Decode, Group, Wrote, Address, WrittenThere;
      if created {
        var i := Find(ino);
        if i < CACHE_SIZE {
          cacheInode[i] := inode;
        }
      } else {
        CreateIcache();
      }
      assert Replaced(disk, ino, inode);
      if !writable {
        return WriteFailed(ReadOnly);
      }
      if ino > layout.count {
        ReplacedElsewhere(disk, ino, inode);
        return WriteFailed(BadInodeNum);
      }
      var missing := NoTable(ino);
      if missing {
        ReplacedElsewhere(disk, ino, inode);
        return WriteFailed(MissingInodeTable);
      }
      ghost var before := disk;
      StoreInode(ino, inode);
      WrittenThereIs(layout, before, disk, ino, inode);
      ReplacedWritten(before, disk, ino, inode);
      r := Written;
    }

    /** There is no inode table for this inode. */
    method NoTable(ino: nat) returns (missing: bool)
      requires WfLayout(layout) && 0 < ino <= layout.count
      ensures missing == !HasTable(layout, ino)
    {
      GroupBound(layout, ino);
      missing := layout.tables[BlockOf(layout.perGroup, ino - 1)] == 0;
    }
  }

  lemma DecodeIs(l: Layout, disk: Disk, ino: nat)
    requires WfLayout(l) && 0 < ino <= l.count && BlockSized(disk, l.bs)
    ensures Decode(l, disk, ino) == BytesOn(disk, l.bs, Address(l, ino), INODE_BYTES)
  {
  }

  lemma WroteNothing(disk: Disk, bs: nat, a: nat)
    requires BlockSized(disk, bs)
    ensures Wrote(disk, disk, bs, a, [])
  {
  }

  lemma SizeUp(bs: nat, n: nat)
    ensures Size(bs, n + 1) == Size(bs, n) + bs
  {
  }

  lemma BytesNone(disk: Disk, bs: nat, a: nat)
    requires BlockSized(disk, bs)
    ensures BytesOn(disk, bs, a, 0) == []
  {
  }
}
