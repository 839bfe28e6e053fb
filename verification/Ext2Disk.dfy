/** Inodes on an ext2 disk, read and written directly. */
module Ext2Disk {
  import opened Bits
  import opened Ext2File

  /** The part of an inode that is read and written. */
  const INODE_BYTES: nat := 128

  /** Where inodes are: `tables` has the first block of each group's inode table, 0 if it has
    * none. */
  datatype Layout = Layout(bs: nat, inodeSize: nat, perGroup: nat, count: nat, tables: seq<nat>)

  /** The inode tables cover all inode numbers and do not overlap. */
  ghost predicate WfLayout(l: Layout) {
    && l.bs > 0 && l.perGroup > 0 && l.inodeSize >= INODE_BYTES
    && l.count <= Size(l.perGroup, |l.tables|)
    && forall g, h :: 0 <= g < |l.tables| && 0 <= h < |l.tables| && g != h && l.tables[g] != 0 && l.tables[h] != 0 ==>
         || Size(l.bs, l.tables[g]) + Size(l.inodeSize, l.perGroup) <= Size(l.bs, l.tables[h])
         || Size(l.bs, l.tables[h]) + Size(l.inodeSize, l.perGroup) <= Size(l.bs, l.tables[g])
  }

  function Group(l: Layout, ino: nat): (g: nat)
    requires WfLayout(l) && 0 < ino <= l.count
    ensures g < |l.tables|
    ensures Size(l.perGroup, g) < ino <= Size(l.perGroup, g) + l.perGroup
  {
    GroupBound(l, ino);
    BlockOf(l.perGroup, ino - 1)
  }

  lemma GroupBound(l: Layout, ino: nat)
    requires WfLayout(l) && 0 < ino <= l.count
    ensures BlockOf(l.perGroup, ino - 1) < |l.tables|
  {
    var g := BlockOf(l.perGroup, ino - 1);
    if |l.tables| <= g { SizeMono(l.perGroup, |l.tables|, g); }
  }

  /** An inode's offset in its group's table. */
  function Offset(l: Layout, ino: nat): nat
    requires WfLayout(l) && 0 < ino <= l.count
  {
    Size(l.inodeSize, ino - 1 - Size(l.perGroup, Group(l, ino)))
  }

  predicate HasTable(l: Layout, ino: nat)
    requires WfLayout(l) && 0 < ino <= l.count
  {
    l.tables[Group(l, ino)] != 0
  }

  /** The address of an inode's first byte on the disk. */
  function Address(l: Layout, ino: nat): nat
    requires WfLayout(l) && 0 < ino <= l.count
  {
    Size(l.bs, l.tables[Group(l, ino)]) + Offset(l, ino)
  }

  /** The byte of the disk at an address. */
  function ByteOn(disk: Disk, bs: nat, a: nat): byte
    requires BlockSized(disk, bs)
  {
    disk(BlockOf(bs, a))[a - Size(bs, BlockOf(bs, a))]
  }

  lemma ByteOnIs(disk: Disk, bs: nat, a: nat)
    requires BlockSized(disk, bs)
    ensures ByteOn(disk, bs, a) == disk(a / bs)[a % bs]
  {
    BlockOfDivides(bs, a);
  }

  function BytesOn(disk: Disk, bs: nat, a: nat, n: nat): (r: seq<byte>)
    requires BlockSized(disk, bs)
    ensures |r| == n && forall k :: 0 <= k < n ==> r[k] == ByteOn(disk, bs, a + k)
  {
    if n == 0 then [] else BytesOn(disk, bs, a, n - 1) + [ByteOn(disk, bs, a + n - 1)]
  }

  /** The inode as it is on the disk. */
  function Decode(l: Layout, disk: Disk, ino: nat): (r: seq<byte>)
    requires WfLayout(l) && 0 < ino <= l.count && BlockSized(disk, l.bs)
    ensures |r| == INODE_BYTES
  {
    BytesOn(disk, l.bs, Address(l, ino), INODE_BYTES)
  }

  /** Inodes count from 1.  Each group has its inodes one after the other from the start of its table on. */
  lemma AddressIs(l: Layout, ino: nat)
    requires WfLayout(l) && 0 < ino <= l.count
    ensures var g, k := (ino - 1) / l.perGroup, (ino - 1) % l.perGroup;
            && g < |l.tables| && (HasTable(l, ino) <==> l.tables[g] != 0)
            && Address(l, ino) == l.bs * l.tables[g] + l.inodeSize * k
  {
    var g, k := (ino - 1) / l.perGroup, (ino - 1) % l.perGroup;
    BlockOfDivides(l.perGroup, ino - 1);
    GroupBound(l, ino);
    SizeIs(l.bs, l.tables[g]);
    SizeIs(l.inodeSize, k);
  }

  /** Bytes `data` put on the disk at address `a`. */
  ghost predicate Wrote(disk: Disk, disk': Disk, bs: nat, a: nat, data: seq<byte>)
    requires BlockSized(disk, bs) && BlockSized(disk', bs)
  {
    forall p: nat :: ByteOn(disk', bs, p) == if a <= p < a + |data| then data[p - a] else ByteOn(disk, bs, p)
  }

  /** Two inodes do not share bytes. */
  lemma Apart(l: Layout, i: nat, j: nat)
    requires WfLayout(l) && 0 < i <= l.count && 0 < j <= l.count && i != j && HasTable(l, i) && HasTable(l, j)
    ensures Address(l, i) + INODE_BYTES <= Address(l, j) || Address(l, j) + INODE_BYTES <= Address(l, i)
  {
    var g, h := Group(l, i), Group(l, j);
    var k, m := i - 1 - Size(l.perGroup, g), j - 1 - Size(l.perGroup, h);
    if g == h {
      if k < m { SizeMono(l.inodeSize, k, m); } else { SizeMono(l.inodeSize, m, k); }
    } else {
      SizeMono(l.inodeSize, k, l.perGroup);
      SizeMono(l.inodeSize, m, l.perGroup);
    }
  }

  /** After an inode has been written, it reads back, and every other inode is as before. */
  lemma WriteDecode(l: Layout, disk: Disk, disk': Disk, i: nat, data: seq<byte>, j: nat)
    requires WfLayout(l) && 0 < i <= l.count && 0 < j <= l.count && HasTable(l, i) && HasTable(l, j)
    requires BlockSized(disk, l.bs) && BlockSized(disk', l.bs) && |data| == INODE_BYTES
    requires Wrote(disk, disk', l.bs, Address(l, i), data)
    ensures Decode(l, disk', j) == if i == j then data else Decode(l, disk, j)
  {
    hide Group, Offset, Address, ByteOn;
    if i != j { Apart(l, i, j); }
    var a := Address(l, j);
    forall k | 0 <= k < INODE_BYTES
      ensures Decode(l, disk', j)[k] == if i == j then data[k] else Decode(l, disk, j)[k]
    {
      assert ByteOn(disk', l.bs, a + k) == if Address(l, i) <= a + k < Address(l, i) + |data| then data[a + k - Address(l, i)] else ByteOn(disk, l.bs, a + k);
    }
  }

  /** The bytes at an address, in one block. */
  lemma InBlock(disk: Disk, bs: nat, b: nat, o: nat, n: nat)
    requires BlockSized(disk, bs) && o + n <= bs
    ensures BytesOn(disk, bs, Size(bs, b) + o, n) == disk(b)[o..o + n]
  {
    var r := BytesOn(disk, bs, Size(bs, b) + o, n);
    forall k | 0 <= k < n ensures r[k] == disk(b)[o..o + n][k] {
      BlockOfIs(bs, Size(bs, b) + o + k, b);
    }
  }

  lemma BytesConcat(disk: Disk, bs: nat, a: nat, m: nat, n: nat)
    requires BlockSized(disk, bs)
    ensures BytesOn(disk, bs, a, m) + BytesOn(disk, bs, a + m, n) == BytesOn(disk, bs, a, m + n)
  {
    var r, w := BytesOn(disk, bs, a, m) + BytesOn(disk, bs, a + m, n), BytesOn(disk, bs, a, m + n);
    forall k | 0 <= k < m + n ensures r[k] == w[k] {
      if k >= m { assert BytesOn(disk, bs, a + m, n)[k - m] == ByteOn(disk, bs, a + m + (k - m)); }
    }
  }

  /** Some bytes of a block replaced. */
  function Patched(block: seq<byte>, o: nat, data: seq<byte>): seq<byte>
    requires o + |data| <= |block|
  {
    block[..o] + data + block[o + |data|..]
  }

  /** A block of the disk replaced. */
  function WithBlock(disk: Disk, b: nat, block: seq<byte>): Disk {
    (c: nat) => if c == b then block else disk(c)
  }

  /** Writing a block in which some bytes were replaced puts just these on the disk. */
  lemma PatchWrites(disk: Disk, bs: nat, b: nat, o: nat, data: seq<byte>)
    requires BlockSized(disk, bs) && o + |data| <= bs
    ensures var disk' := WithBlock(disk, b, Patched(disk(b), o, data));
            BlockSized(disk', bs) && Wrote(disk, disk', bs, Size(bs, b) + o, data)
  {
    var disk' := WithBlock(disk, b, Patched(disk(b), o, data));
    var a := Size(bs, b) + o;
    forall p: nat ensures ByteOn(disk', bs, p) == if a <= p < a + |data| then data[p - a] else ByteOn(disk, bs, p) {
      if Size(bs, b) <= p < Size(bs, b) + bs { BlockOfIs(bs, p, b); }
    }
  }

  lemma WroteMore(disk: Disk, disk': Disk, disk'': Disk, bs: nat, a: nat, d: seq<byte>, e: seq<byte>)
    requires BlockSized(disk, bs) && BlockSized(disk', bs) && BlockSized(disk'', bs)
    requires Wrote(disk, disk', bs, a, d) && Wrote(disk', disk'', bs, a + |d|, e)
    ensures Wrote(disk, disk'', bs, a, d + e)
  {
    hide ByteOn;
  }
}
