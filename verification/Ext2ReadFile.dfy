/** Reading the file of an inode: the iteration over its block map together with the reader. */
module Ext2ReadFile {
  import opened Bits
  import opened Division
  import opened Ext2Map
  import opened Ext2Iterate
  import opened Ext2File
  import opened Ext2Read

  /** Read up to `n` bytes of the file with the pointers `ptrs`.  The reader does not look at calls after
    * the one at which it would abort. */
  method ReadFile(reader: Reader, fs: Fs, ptrs: seq<nat>, n: nat) returns (r: nat)
    requires WellFormed(fs) && |ptrs| == NDIR_BLOCKS + 3 && InodeInRange(fs, ptrs)
    requires forall j: nat :: reader.m(j) == MapBlock(fs, ptrs, j)
    requires BlockSized(reader.disk, reader.bs) && n <= reader.buffer.Length
    // the iteration refuses files of 4 GB and more
    requires Size(reader.bs, Blocks(fs, ptrs)) <= WORD
    modifies reader, reader.buffer
    ensures reader.pos == old(reader.pos) + r
    ensures var size := Size(reader.bs, Blocks(fs, ptrs));
            r == if size <= old(reader.pos) then 0 else Least(size - old(reader.pos), n)
    ensures forall k :: 0 <= k < r ==> reader.buffer[k] == FileByte(reader.disk, reader.bs, fs, ptrs, old(reader.pos) + k)
    ensures reader.buffer[r..] == old(reader.buffer[r..])
  {
    hide MapBlock, Made, Lists, End, Size, InodeInRange;
    var c := new Context(fs, calls => false);
    var abort, error := c.BlockIterate(ptrs);
    AllCalls(c.func, InodeCalls(fs, ptrs), c.calls, abort);
    InodeCallsList(fs, ptrs);
    ListsSame(c.calls, (j: nat) => MapBlock(fs, ptrs, j), reader.m, InodeSpan(fs.limit));
    r := reader.Read(n, c.calls, InodeSpan(fs.limit));
    SameBytes(reader.disk, reader.bs, reader.m, fs, ptrs);
  }

  function Least(a: nat, b: nat): nat {
    if a <= b then a else b
  }

  /** The number of blocks of a file: one past its last mapped block. */
  function Blocks(fs: Fs, ptrs: seq<nat>): nat
    requires |ptrs| == NDIR_BLOCKS + 3
  {
    End(InodeCalls(fs, ptrs))
  }

  /** That is what it is. */
  lemma BlocksIs(fs: Fs, ptrs: seq<nat>)
    requires WellFormed(fs) && |ptrs| == NDIR_BLOCKS + 3
    ensures Blocks(fs, ptrs) <= InodeSpan(fs.limit)
    ensures Blocks(fs, ptrs) > 0 ==> MapBlock(fs, ptrs, Blocks(fs, ptrs) - 1) != 0
    ensures forall j: nat :: Blocks(fs, ptrs) <= j < InodeSpan(fs.limit) ==> MapBlock(fs, ptrs, j) == 0
  {
    hide MapBlock, Lists, End, InodeCalls, InodeSpan;
    var m := (j: nat) => MapBlock(fs, ptrs, j);
    InodeCallsList(fs, ptrs);
    ListsEnd(InodeCalls(fs, ptrs), m, InodeSpan(fs.limit));
    EndAtMost(InodeCalls(fs, ptrs), m, InodeSpan(fs.limit));
    EndMapped(InodeCalls(fs, ptrs), m, InodeSpan(fs.limit), |InodeCalls(fs, ptrs)|);
    assert InodeCalls(fs, ptrs)[..|InodeCalls(fs, ptrs)|] == InodeCalls(fs, ptrs);
    assert forall j: nat :: m(j) == MapBlock(fs, ptrs, j);
  }

  lemma {:induction false} EndMapped(calls: seq<Call>, m: nat -> nat, hi: nat, k: nat)
    requires Lists(calls, m, 0, hi) && k <= |calls|
    ensures End(calls[..k]) > 0 ==> m(End(calls[..k]) - 1) != 0
  {
    if k > 0 {
      EndNext(calls, k - 1);
      EndMapped(calls, m, hi, k - 1);
    }
  }

  /** Byte `p` of the file: from the block its inode maps there, or zero in a hole. */
  function FileByte(disk: Disk, bs: nat, fs: Fs, ptrs: seq<nat>, p: nat): byte
    requires BlockSized(disk, bs) && |ptrs| == NDIR_BLOCKS + 3
  {
    var j := BlockOf(bs, p);
    var b := MapBlock(fs, ptrs, j);
    if b == 0 then 0 else disk(b)[p - Size(bs, j)]
  }

  lemma SameBytes(disk: Disk, bs: nat, m: nat -> nat, fs: Fs, ptrs: seq<nat>)
    requires BlockSized(disk, bs) && |ptrs| == NDIR_BLOCKS + 3 && forall j: nat :: m(j) == MapBlock(fs, ptrs, j)
    ensures forall p: nat :: FileByte(disk, bs, fs, ptrs, p) == ByteAt(disk, bs, m, p)
  {
    hide MapBlock;
  }

  lemma AllCalls(stop: Callback, todo: seq<Call>, calls: seq<Call>, abort: bool)
    requires (forall c :: !stop(c)) && Made(stop, [], todo, calls, abort)
    ensures calls == todo
  {
    NeverAborts(stop, [], todo);
    assert [] + todo == todo;
  }

  lemma ListsSame(calls: seq<Call>, m: nat -> nat, m': nat -> nat, hi: nat)
    requires Lists(calls, m, 0, hi) && forall j: nat :: m'(j) == m(j)
    ensures Lists(calls, m', 0, hi)
  {
  }

  // ----- The block map in numbers

  /** Entry `i` of an indirect block, 0 if there is no such block. */
  function Entry(fs: Fs, b: nat, i: nat): nat
    requires WellFormed(fs) && i < fs.limit
  {
    if b == 0 then 0 else fs.read(b)[i]
  }

  lemma {:induction false} FromIs(fs: Fs, level: nat, ptrs: seq<nat>, i: nat, j: nat, q: nat)
    requires level > 0 && i + q < |ptrs|
    requires Span(fs.limit, level - 1) * q <= j < Span(fs.limit, level - 1) * q + Span(fs.limit, level - 1)
    ensures MapFrom(fs, level, ptrs, i, j) == MapAt(fs, level - 1, ptrs[i + q], j - Span(fs.limit, level - 1) * q)
    decreases q
  {
    hide Span, MapAt;
    var s := Span(fs.limit, level - 1);
    if q > 0 {
      assert s * q == s * (q - 1) + s;
      Times(s, 0, q);
      FromIs(fs, level, ptrs, i + 1, j - s, q - 1);
    }
  }

  /** Under a pointer: the entry that the number leads to, and what is left of the number there. */
  lemma MapAtIs(fs: Fs, level: nat, b: nat, q: nat, r: nat)
    requires WellFormed(fs) && level > 0 && q < fs.limit && r < Span(fs.limit, level - 1)
    ensures MapAt(fs, level, b, Span(fs.limit, level - 1) * q + r) == MapAt(fs, level - 1, Entry(fs, b, q), r)
  {
    hide MapFrom, MapAt, Span;
    var s := Span(fs.limit, level - 1);
    MapAtUnfold(fs, level, b, s * q + r);
    MapAtUnfold(fs, level - 1, 0, r);
    if b != 0 { FromIs(fs, level, fs.read(b), 0, s * q + r, q); }
  }

  lemma MapAtUnfold(fs: Fs, level: nat, b: nat, j: nat)
    ensures b == 0 ==> MapAt(fs, level, b, j) == 0
    ensures b != 0 && level > 0 ==> MapAt(fs, level, b, j) == MapFrom(fs, level, fs.read(b), 0, j)
    ensures level == 0 && j == 0 ==> MapAt(fs, level, b, j) == b
  {
  }

  lemma SpanIs(limit: nat, level: nat)
    requires level > 0
    ensures Span(limit, level) == limit * Span(limit, level - 1)
  {
  }

  lemma Spans(limit: nat)
    ensures Span(limit, 0) == 1 && Span(limit, 1) == limit && Span(limit, 2) == limit * limit && Span(limit, 3) == limit * (limit * limit)
  {
    SpanIs(limit, 1);
    SpanIs(limit, 2);
    SpanIs(limit, 3);
  }

  lemma OneLevel(fs: Fs, b: nat, k: nat)
    requires WellFormed(fs) && k < fs.limit
    ensures MapAt(fs, 1, b, k) == Entry(fs, b, k)
  {
    hide Span, MapAt, MapFrom;
    Spans(fs.limit);
    MapAtIs(fs, 1, b, k, 0);
    MapAtUnfold(fs, 0, Entry(fs, b, k), 0);
  }

  lemma TwoLevels(fs: Fs, b: nat, i: nat, k: nat)
    requires WellFormed(fs) && i < fs.limit && k < fs.limit
    ensures MapAt(fs, 2, b, fs.limit * i + k) == Entry(fs, Entry(fs, b, i), k)
  {
    hide Span, MapAt, MapFrom;
    Spans(fs.limit);
    MapAtIs(fs, 2, b, i, k);
    OneLevel(fs, Entry(fs, b, i), k);
  }

  lemma ThreeLevels(fs: Fs, b: nat, h: nat, i: nat, k: nat)
    requires WellFormed(fs) && h < fs.limit && i < fs.limit && k < fs.limit
    ensures MapAt(fs, 3, b, fs.limit * fs.limit * h + (fs.limit * i + k)) == Entry(fs, Entry(fs, Entry(fs, b, h), i), k)
  {
    hide Span, MapAt, MapFrom;
    Spans(fs.limit);
    Times(fs.limit, i, fs.limit);
    MapAtIs(fs, 3, b, h, fs.limit * i + k);
    TwoLevels(fs, Entry(fs, b, h), i, k);
  }

  lemma Natural(x: nat, y: nat)
    ensures x * x * y >= 0
  {
  }

  lemma MapIn(fs: Fs, ptrs: seq<nat>, x: nat)
    requires |ptrs| == 15
    ensures x < Span(fs.limit, 2) ==> MapBlock(fs, ptrs, 12 + Span(fs.limit, 1) + x) == MapAt(fs, 2, ptrs[13], x)
    ensures MapBlock(fs, ptrs, 12 + Span(fs.limit, 1) + Span(fs.limit, 2) + x) == MapAt(fs, 3, ptrs[14], x)
  {
    hide Span, MapAt;
  }

  /** Twelve blocks are listed in the inode. */
  lemma MapDirect(fs: Fs, ptrs: seq<nat>, j: nat)
    requires |ptrs| == 15 && j < 12
    ensures MapBlock(fs, ptrs, j) == ptrs[j]
  {
    hide Span, MapAt;
  }

  /** The next ones, as many as a block has entries, in one indirect block. */
  lemma MapSingle(fs: Fs, ptrs: seq<nat>, k: nat)
    requires WellFormed(fs) && |ptrs| == 15 && k < fs.limit
    ensures MapBlock(fs, ptrs, 12 + k) == Entry(fs, ptrs[12], k)
  {
    hide Span, MapAt;
    Spans(fs.limit);
    OneLevel(fs, ptrs[12], k);
  }

  /** Then as many indirect blocks, which a double indirect block lists. */
  lemma MapDouble(fs: Fs, ptrs: seq<nat>, i: nat, k: nat)
    requires WellFormed(fs) && |ptrs| == 15 && i < fs.limit && k < fs.limit
    ensures MapBlock(fs, ptrs, 12 + fs.limit + (fs.limit * i + k)) == Entry(fs, Entry(fs, ptrs[13], i), k)
  {
    hide Span, MapAt, MapBlock;
    Spans(fs.limit);
    Times(fs.limit, i, fs.limit);
    MapIn(fs, ptrs, fs.limit * i + k);
    TwoLevels(fs, ptrs[13], i, k);
  }

  /** And as many double indirect blocks, which a triple indirect block lists. */
  lemma MapTriple(fs: Fs, ptrs: seq<nat>, h: nat, i: nat, k: nat)
    requires WellFormed(fs) && |ptrs| == 15 && h < fs.limit && i < fs.limit && k < fs.limit
    ensures MapBlock(fs, ptrs, 12 + fs.limit + fs.limit * fs.limit + (fs.limit * fs.limit * h + (fs.limit * i + k)))
            == Entry(fs, Entry(fs, Entry(fs, ptrs[14], h), i), k)
  {
    hide Span, MapAt, MapBlock;
    Spans(fs.limit);
    Natural(fs.limit, h);
    var x: nat := fs.limit * fs.limit * h + (fs.limit * i + k);
    MapIn(fs, ptrs, x);
    ThreeLevels(fs, ptrs[14], h, i, k);
  }

  /** A byte of the file, from the block that its number divided by the block size leads to. */
  lemma FileByteIs(disk: Disk, bs: nat, fs: Fs, ptrs: seq<nat>, p: nat)
    requires BlockSized(disk, bs) && |ptrs| == 15
    ensures var b := MapBlock(fs, ptrs, p / bs); FileByte(disk, bs, fs, ptrs, p) == if b == 0 then 0 else disk(b)[p % bs]
  {
    hide MapBlock;
    BlockOfDivides(bs, p);
  }
}
