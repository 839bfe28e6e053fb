/** The content of an ext2 file, byte by byte. */
module Ext2File {
  import opened Bits
  import opened Division
  import opened Ext2Map

  /** The bytes in `n` blocks. */
  function Size(bs: nat, n: nat): nat {
    if n == 0 then 0 else Size(bs, n - 1) + bs
  }

  /** The block that byte `p` is in. */
  function BlockOf(bs: nat, p: nat): (j: nat)
    requires bs > 0
    ensures Size(bs, j) <= p < Size(bs, j) + bs
    decreases p
  {
    if p < bs then 0 else
      SizeFirst(bs, BlockOf(bs, p - bs));
      1 + BlockOf(bs, p - bs)
  }

  lemma {:induction false} SizeFirst(bs: nat, n: nat)
    ensures Size(bs, n + 1) == bs + Size(bs, n)
  {
    if n > 0 { SizeFirst(bs, n - 1); }
  }

  lemma {:induction false} SizeAdd(bs: nat, a: nat, b: nat)
    ensures Size(bs, a + b) == Size(bs, a) + Size(bs, b)
  {
    if b > 0 {
      SizeAdd(bs, a, b - 1);
      assert a + b - 1 == a + (b - 1);
    }
  }

  lemma SizeMono(bs: nat, a: nat, b: nat)
    requires a <= b
    ensures Size(bs, a) <= Size(bs, b)
    ensures a < b ==> Size(bs, a) + bs <= Size(bs, b)
  {
    SizeAdd(bs, a, b - a);
  }

  lemma BlockOfIs(bs: nat, p: nat, j: nat)
    requires bs > 0 && Size(bs, j) <= p < Size(bs, j) + bs
    ensures BlockOf(bs, p) == j
  {
    var k := BlockOf(bs, p);
    if k < j { SizeMono(bs, k, j); } else if j < k { SizeMono(bs, j, k); }
  }

  // ----- In terms of multiplication and division

  lemma {:induction false} SizeIs(bs: nat, n: nat)
    ensures Size(bs, n) == bs * n
  {
    if n > 0 {
      SizeIs(bs, n - 1);
      assert bs * n == bs * (n - 1) + bs;
    }
  }

  lemma BlockOfDivides(bs: nat, p: nat)
    requires bs > 0
    ensures BlockOf(bs, p) == p / bs && Size(bs, BlockOf(bs, p)) == p - p % bs
  {
    SizeIs(bs, BlockOf(bs, p));
    QuotientIs(p, bs, BlockOf(bs, p));
  }

  type Disk = nat -> seq<byte>

  ghost predicate BlockSized(disk: Disk, bs: nat) {
    bs > 0 && forall b: nat :: |disk(b)| == bs
  }

  /** Byte `p` of the file with block map `m`: holes read as zeros. */
  function ByteAt(disk: Disk, bs: nat, m: nat -> nat, p: nat): byte
    requires BlockSized(disk, bs)
  {
    var j := BlockOf(bs, p);
    if m(j) == 0 then 0 else disk(m(j))[p - Size(bs, j)]
  }

  lemma ByteAtIs(disk: Disk, bs: nat, m: nat -> nat, p: nat)
    requires BlockSized(disk, bs)
    ensures ByteAt(disk, bs, m, p) == if m(p / bs) == 0 then 0 else disk(m(p / bs))[p % bs]
  {
    BlockOfDivides(bs, p);
  }

  /** `data` is what the file has from byte `p` on. */
  ghost predicate IsData(disk: Disk, bs: nat, m: nat -> nat, p: nat, data: seq<byte>)
    requires BlockSized(disk, bs)
  {
    forall k :: 0 <= k < |data| ==> data[k] == ByteAt(disk, bs, m, p + k)
  }

  lemma IsDataPart(disk: Disk, bs: nat, m: nat -> nat, p: nat, data: seq<byte>, from: nat, to: nat)
    requires BlockSized(disk, bs) && IsData(disk, bs, m, p, data) && from <= to <= |data|
    ensures IsData(disk, bs, m, p + from, data[from..to])
  {
    forall k | 0 <= k < to - from ensures data[from..to][k] == ByteAt(disk, bs, m, p + from + k) {
      assert data[from + k] == ByteAt(disk, bs, m, p + (from + k));
    }
  }

  lemma IsDataConcat(disk: Disk, bs: nat, m: nat -> nat, p: nat, a: seq<byte>, b: seq<byte>)
    requires BlockSized(disk, bs) && IsData(disk, bs, m, p, a) && IsData(disk, bs, m, p + |a|, b)
    ensures IsData(disk, bs, m, p, a + b)
  {
    forall k | 0 <= k < |a + b| ensures (a + b)[k] == ByteAt(disk, bs, m, p + k) {
      if k >= |a| { assert b[k - |a|] == ByteAt(disk, bs, m, p + |a| + (k - |a|)); }
    }
  }

  lemma BlockIsData(disk: Disk, bs: nat, m: nat -> nat, j: nat)
    requires BlockSized(disk, bs) && m(j) != 0
    ensures IsData(disk, bs, m, Size(bs, j), disk(m(j)))
  {
    forall k | 0 <= k < bs ensures disk(m(j))[k] == ByteAt(disk, bs, m, Size(bs, j) + k) {
      BlockOfIs(bs, Size(bs, j) + k, j);
    }
  }

  function Zeros(n: nat): (r: seq<byte>)
    ensures |r| == n && forall k :: 0 <= k < n ==> r[k] == 0
  {
    seq(n, _ => 0)
  }

  /** Between two blocks of a hole there are only zeros. */
  lemma HoleIsData(disk: Disk, bs: nat, m: nat -> nat, p: nat, n: nat, lo: nat, hi: nat)
    requires BlockSized(disk, bs) && (forall j: nat :: lo <= j < hi ==> m(j) == 0)
    requires Size(bs, lo) <= p && p + n <= Size(bs, hi)
    ensures IsData(disk, bs, m, p, Zeros(n))
  {
    forall k | 0 <= k < n ensures Zeros(n)[k] == ByteAt(disk, bs, m, p + k) {
      var j := BlockOf(bs, p + k);
      if j < lo { SizeMono(bs, j, lo); }
      if hi <= j { SizeMono(bs, hi, j); }
    }
  }

  /** The content of `count` blocks of the disk from `start` on. */
  function Blocks(disk: Disk, bs: nat, start: nat, count: nat): (r: seq<byte>)
    requires BlockSized(disk, bs)
    ensures |r| == Size(bs, count)
  {
    if count == 0 then [] else Blocks(disk, bs, start, count - 1) + disk(start + count - 1)
  }

  /** Blocks that follow each other both in the file and on the disk. */
  lemma {:induction false} BlocksAreData(disk: Disk, bs: nat, m: nat -> nat, j: nat, start: nat, count: nat)
    requires BlockSized(disk, bs)
    requires forall i: nat :: j <= i < j + count ==> m(i) == start + (i - j) && m(i) != 0
    ensures IsData(disk, bs, m, Size(bs, j), Blocks(disk, bs, start, count))
  {
    hide Size;
    if count > 0 {
      BlocksAreData(disk, bs, m, j, start, count - 1);
      assert m(j + (count - 1)) == start + (count - 1);
      BlockIsData(disk, bs, m, j + (count - 1));
      SizeAdd(bs, j, count - 1);
      IsDataConcat(disk, bs, m, Size(bs, j), Blocks(disk, bs, start, count - 1), disk(start + count - 1));
    }
  }

  /** One past the last block of the file among some calls. */
  function End(calls: seq<Call>): nat {
    if |calls| == 0 then 0
    else if calls[|calls| - 1].count >= 0 then calls[|calls| - 1].count + 1
    else End(calls[..|calls| - 1])
  }

  /** The number of bytes that can be read from byte `p` on. */
  function Readable(bs: nat, calls: seq<Call>, p: nat, n: nat): nat {
    var end := Size(bs, End(calls));
    if end <= p then 0 else if end - p < n then end - p else n
  }

  /** All earlier blocks come before `End`. */
  lemma {:induction false} EndBound(calls: seq<Call>, m: nat -> nat, lo: nat, hi: nat, k: nat)
    requires Lists(calls, m, lo, hi) && k <= |calls|
    ensures forall l :: 0 <= l < k && calls[l].count >= 0 ==> calls[l].count < End(calls[..k])
    ensures forall l :: k <= l < |calls| && calls[l].count >= 0 ==> calls[l].count >= End(calls[..k])
  {
    if k > 0 {
      assert calls[..k][..k - 1] == calls[..k - 1];
      EndBound(calls, m, lo, hi, k - 1);
    }
  }

  /** Between one call and the next there are only holes. */
  lemma Gap(calls: seq<Call>, m: nat -> nat, hi: nat, k: nat)
    requires Lists(calls, m, 0, hi) && k < |calls| && calls[k].count >= 0
    ensures End(calls[..k]) <= calls[k].count
    ensures forall j: nat :: End(calls[..k]) <= j < calls[k].count ==> m(j) == 0
  {
    EndBound(calls, m, 0, hi, k);
  }

  lemma EndNext(calls: seq<Call>, k: nat)
    requires k < |calls|
    ensures End(calls[..k + 1]) == if calls[k].count >= 0 then calls[k].count + 1 else End(calls[..k])
  {
    assert calls[..k + 1][..k] == calls[..k];
  }

  /** The calls list the map up to their own end, beyond which there is nothing. */
  lemma ListsEnd(calls: seq<Call>, m: nat -> nat, hi: nat)
    requires Lists(calls, m, 0, hi)
    ensures Lists(calls, m, 0, End(calls))
    ensures forall j: nat :: End(calls) <= j < hi ==> m(j) == 0
  {
    EndBound(calls, m, 0, hi, |calls|);
    assert calls[..|calls|] == calls;
    EndAtMost(calls, m, hi);
  }

  lemma {:induction false} EndAtMost(calls: seq<Call>, m: nat -> nat, hi: nat)
    requires Lists(calls, m, 0, hi)
    ensures End(calls) <= hi
  {
    if |calls| > 0 && calls[|calls| - 1].count < 0 {
      EndPart(calls, |calls| - 1, hi);
    }
  }

  lemma {:induction false} EndPart(calls: seq<Call>, k: nat, hi: nat)
    requires k <= |calls| && forall l :: 0 <= l < |calls| && calls[l].count >= 0 ==> calls[l].count < hi
    ensures End(calls[..k]) <= hi
  {
    if k > 0 {
      EndNext(calls, k - 1);
      EndPart(calls, k - 1, hi);
    }
  }
}
