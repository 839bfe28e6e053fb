/** Reading an ext2 file: block by block through the iterator's callback, contiguous blocks with
  * one request to the disk.
  */
module Ext2Read {
  import opened Bits
  import opened Ext2Map
  import opened Ext2File

  const MAX_READ_RANGE: nat := 256

  /** One more than the largest number of 32 bits. */
  const WORD: nat := 0x1_0000_0000

  class Reader {
    const disk: Disk
    const bs: nat

    /** The caller's buffer. */
    const buffer: array<byte>

    /** The position in the file. */
    var pos: nat

    var rangeStart: nat
    var rangeCount: nat
    var lastLogical: nat
    var total: nat
    var max: nat

    /** The next place in the buffer. */
    var out: nat

    ghost const m: nat -> nat
    ghost var begin: nat
    ghost var size: nat
    ghost var was: seq<byte>

    constructor (disk: Disk, bs: nat, buffer: array<byte>, ghost m: nat -> nat, pos: nat)
      ensures this.disk == disk && this.bs == bs && this.buffer == buffer && this.m == m && this.pos == pos
    {
      this.disk, this.bs, this.buffer, this.m, this.pos := disk, bs, buffer, m, pos;
      rangeStart, rangeCount, lastLogical, total, max, out := 0, 0, 0, 0, 0, 0;
      begin, size, was := 0, 0, [];
    }

    /** What has been read is in the buffer, and nothing else of it has changed. */
    ghost predicate Content()
      reads this`out, this`total, this`max, this`pos, this`begin, this`size, this`was, buffer
    {
      && BlockSized(disk, bs)
      && out == total && total + max == size <= buffer.Length && pos == begin + total
      && |was| == buffer.Length
      && IsData(disk, bs, m, begin, buffer[..total])
      && buffer[total..] == was[total..]
    }

    /** The pending blocks follow each other in the file and on the disk, up to block `next`. */
    ghost predicate Range(next: nat)
      reads this
    {
      && bs > 0
      && rangeStart != 0 && 0 < rangeCount <= MAX_READ_RANGE
      && pos == Size(bs, lastLogical) && next == lastLogical + rangeCount
      && (forall j: nat :: lastLogical <= j < next ==> m(j) == rangeStart + (j - lastLogical) && m(j) != 0)
      && Size(bs, rangeCount - 1) <= max
    }

    /** No block is pending: nothing has been read yet, or all up to block `next`. */
    ghost predicate Idle(next: nat)
      reads this
    {
      && bs > 0
      && rangeStart == 0 && rangeCount == 0 && lastLogical == BlockOf(bs, pos)
      && ((total == 0 && next <= lastLogical) || (pos == Size(bs, next) && next == lastLogical))
    }

    /** There is more to read. */
    ghost predicate More(next: nat)
      reads this, buffer
    {
      && Content() && BlockSized(disk, bs)
      && (Idle(next) || (Range(next) && Size(bs, rangeCount) < max))
      && (max > 0 || total == 0)
    }

    /** All has been read, or will be with the pending blocks. */
    ghost predicate Enough(next: nat)
      reads this, buffer
    {
      && Content() && BlockSized(disk, bs)
      && ((Range(next) && Size(bs, rangeCount) >= max)
          || (rangeStart == 0 && max == 0 && (total == 0 || pos <= Size(bs, next))))
    }

    /** Copy bytes to a place in the buffer. */
    method CopyIn(at: nat, data: seq<byte>)
      requires at + |data| <= buffer.Length
      modifies buffer
      ensures buffer[..] == old(buffer[..at]) + data + old(buffer[at + |data|..])
    {
      var i := 0;
      while i < |data|
        invariant 0 <= i <= |data|
        invariant forall k :: 0 <= k < i ==> buffer[at + k] == data[k]
        invariant forall k :: 0 <= k < at || at + i <= k < buffer.Length ==> buffer[k] == old(buffer[k])
      {
        buffer[at + i] := data[i];
        i := i + 1;
      }
      CopiedIn(old(buffer[..]), buffer[..], at, data);
    }

    /** Put bytes of the file into the buffer. */
    method Deliver(data: seq<byte>)
      requires Content() && |data| <= max && IsData(disk, bs, m, pos, data)
      modifies this`pos, this`total, this`max, this`out, buffer
      ensures Content() && pos == old(pos) + |data| && max == old(max) - |data| && total == old(total) + |data|
    {
      hide ByteAt;
      ghost var before := buffer[..total];
      IsDataConcat(disk, bs, m, begin, before, data);
      CopyIn(out, data);
      assert buffer[..][..total + |data|] == before + data;
      assert buffer[..][total + |data|..] == was[total + |data|..];
      assert buffer[..total + |data|] == buffer[..][..total + |data|] && buffer[total + |data|..] == buffer[..][total + |data|..];
      max, total, out, pos := max - |data|, total + |data|, out + |data|, pos + |data|;
    }

    /** Read the pending blocks that are wanted as a whole. */
    method DumpBlocks(count: nat, ghost next: nat)
      requires Content() && Range(next) && 0 < count <= rangeCount && Size(bs, count) <= max
      modifies this`pos, this`total, this`max, this`out, this`rangeStart, this`rangeCount, this`lastLogical, buffer
      ensures Content() && rangeCount == old(rangeCount) - count && lastLogical == old(lastLogical) + count
      ensures rangeStart == old(rangeStart) + count
      ensures pos == Size(bs, lastLogical) && max == old(max) - Size(bs, count) && total >= old(total)
    {
      hide Size, IsData, ByteAt;
      BlocksAreData(disk, bs, m, lastLogical, rangeStart, count);
      SizeAdd(bs, lastLogical, count);
      Deliver(Blocks(disk, bs, rangeStart, count));
      rangeCount := rangeCount - count;
      rangeStart := rangeStart + count;
      lastLogical := lastLogical + count;
    }

    /** Read the first part of a block. */
    method DumpPart(j: nat)
      requires Content() && pos == Size(bs, j) && m(j) == rangeStart != 0 && max <= bs
      modifies this`pos, this`total, this`max, this`out, buffer
      ensures Content() && pos == old(pos) + old(max) && max == 0 && total >= old(total)
    {
      hide Size, IsData, ByteAt;
      BlockIsData(disk, bs, m, j);
      var block := disk(rangeStart);
      IsDataPart(disk, bs, m, pos, block, 0, max);
      Deliver(block[..max]);
    }

    /** Read the pending blocks; of the last one perhaps only a part. */
    method ReadDumpRange(ghost next: nat) returns (abort: bool)
      requires Content() && Range(next)
      modifies this`pos, this`total, this`max, this`out, this`rangeStart, this`rangeCount, this`lastLogical, buffer
      ensures Content() && rangeStart == 0 && rangeCount == 0 && abort == (max == 0)
      ensures total >= old(total) && pos <= Size(bs, next)
      ensures !abort ==> Idle(next) && pos == Size(bs, next)
      ensures old(max) <= Size(bs, old(rangeCount)) ==> max == 0
    {
      hide IsData, ByteAt, BlockOf, Content;
      ghost var first, all := lastLogical, rangeCount;
      SizeAdd(bs, first, all - 1);
      SizeStep(bs, next);
      SizeStep(bs, all);
      hide Size;
      var count := rangeCount;
      // the last of the pending blocks may only be wanted in part
      if Size(bs, count) > max {
        count := count - 1;
      }
      if count > 0 {
        DumpBlocks(count, next);
      } else {
        SizeNone(bs);
      }
      // handle remaining block
      if max > 0 && rangeCount > 0 {
        DumpPart(lastLogical);
      }
      rangeCount, rangeStart := 0, 0;
      if max > 0 { BlockOfIs(bs, pos, next); }
      abort := max == 0;
    }
  
    /** The zeros up to the end of the block of a hole that the position is in. */
    method FillPart(ghost lg: nat)
      requires Content() && BlockSized(disk, bs) && lastLogical == BlockOf(bs, pos) && pos > Size(bs, lastLogical)
      requires lastLogical < lg && forall j: nat :: lastLogical <= j < lg ==> m(j) == 0
      modifies this`pos, this`total, this`max, this`out, this`lastLogical, buffer
      ensures Content() && max <= old(max) && total >= old(total) && lastLogical == old(lastLogical) + 1
      ensures if max == 0 then pos <= Size(bs, lg) else pos == Size(bs, lastLogical)
    {
      hide IsData, ByteAt, Content;
      var offset := pos - Size(bs, BlockOf(bs, pos));
      var size := bs - offset;
      if size > max {
        size := max;
      }
      SizeMono(bs, lastLogical, lg);
      HoleIsData(disk, bs, m, pos, size, lastLogical, lg);
      Deliver(Zeros(size));
      lastLogical := lastLogical + 1;
    }

    /** The zeros of a hole's whole blocks. */
    method FillBlocks(lg: nat)
      requires Content() && BlockSized(disk, bs) && lastLogical <= lg && pos == Size(bs, lastLogical) && Size(bs, lg) < WORD
      requires forall j: nat :: lastLogical <= j < lg ==> m(j) == 0
      modifies this`pos, this`total, this`max, this`out, buffer
      ensures Content() && max <= old(max) && total >= old(total)
      ensures if max == 0 && lastLogical < lg then pos <= Size(bs, lg) else pos == Size(bs, lg)
      ensures (max == 0 ==> pos <= Size(bs, lg)) && (lastLogical == lg ==> max == old(max))
    {
      hide IsData, ByteAt, Content;
      SizeAdd(bs, lastLogical, lg - lastLogical);
      var nzero := Size(bs, lg - lastLogical) % WORD;
      if nzero != 0 {
        if nzero > max {
          nzero := max;
        }
        HoleIsData(disk, bs, m, pos, nzero, lastLogical, lg);
        Deliver(Zeros(nzero));
      }
      if lastLogical == lg { SizeNone(bs); }
    }

    /** Fill in zeros for the hole before block `lg`. */
    method FillHole(lg: nat, ghost next: nat) returns (abort: bool)
      requires Content() && BlockSized(disk, bs) && Idle(next) && lastLogical < lg && Size(bs, lg) < WORD
      requires forall j: nat :: next <= j < lg ==> m(j) == 0
      requires max > 0 || total == 0
      modifies this`pos, this`total, this`max, this`out, this`lastLogical, buffer
      ensures Content() && (abort ==> max == 0 && pos <= Size(bs, lg))
      ensures !abort ==> pos == Size(bs, lg) && lastLogical == lg && (max > 0 || total == 0)
    {
      hide IsData, ByteAt, Content;
      if pos > Size(bs, BlockOf(bs, pos)) {
        FillPart(lg);
        if max == 0 {
          return true;
        }
      }
      FillBlocks(lg);
      if max == 0 && lastLogical < lg {
        return true;
      }
      lastLogical := lg;
      abort := false;
    }
  
    /** The rest of the block that the position is inside of. */
    method ReadUnaligned(blk: nat, lg: nat) returns (abort: bool)
      requires Content() && BlockSized(disk, bs) && rangeStart == 0 && rangeCount == 0
      requires blk == m(lg) != 0 && BlockOf(bs, pos) == lg && (max > 0 || total == 0)
      modifies this`pos, this`total, this`max, this`out, this`lastLogical, buffer
      ensures Content() && abort == (max == 0) && (abort ==> pos <= Size(bs, lg + 1))
      ensures !abort ==> Idle(lg + 1)
    {
      hide IsData, ByteAt, Content, BlockOf;
      var offset := pos - Size(bs, BlockOf(bs, pos));
      var size := bs - offset;
      var block := disk(blk);
      if size > max {
        size := max;
      }
      BlockIsData(disk, bs, m, lg);
      IsDataPart(disk, bs, m, Size(bs, lg), block, offset, offset + size);
      Deliver(block[offset..offset + size]);
      lastLogical := lg + 1;
      SizeStep(bs, lg + 1);
      if max > 0 { BlockOfIs(bs, pos, lg + 1); }
      abort := max == 0;
    }

    /** The callback for block `blk` of the disk, which is block `lg` of the file if that is not
      * negative. */
    method ReadIterator(blk: nat, lg: int, ghost next: nat) returns (abort: bool)
      requires More(next)
      requires lg >= 0 ==> next <= lg && blk == m(lg) != 0 && Size(bs, lg + 1) <= WORD
      requires forall j: nat :: next <= j < lg ==> m(j) == 0
      modifies this`pos, this`total, this`max, this`out, this`rangeStart, this`rangeCount, this`lastLogical, buffer
      ensures lg < 0 ==> !abort && More(next)
      ensures lg >= 0 ==> if abort then Enough(lg + 1) else More(lg + 1)
    {
      hide IsData, ByteAt, Content, BlockOf, Size;
      if lg < 0 {
        return false;
      }
      SizeNext(bs, lg);
      if rangeStart != 0 { BlockOfIs(bs, pos, lastLogical); }
      // a block before the one the position is in
      if lg < BlockOf(bs, pos) {
        return false;
      }
      // if the block is contiguous to the current range, just extend the range
      if rangeStart != 0 && rangeCount < MAX_READ_RANGE && blk == rangeStart + rangeCount && lg == lastLogical + rangeCount {
        rangeCount := rangeCount + 1;
        abort := Size(bs, rangeCount) >= max;
        return;
      }
      // the range does not match: dump the existing range
      if rangeStart != 0 {
        SizeMono(bs, next, lg + 1);
        abort := ReadDumpRange(next);
        if abort {
          return;
        }
        BlockOfIs(bs, pos, next);
      }
      // the callback left out block numbers: a hole
      if lg != 0 && lg != lastLogical {
        abort := FillHole(lg, next);
        if abort {
          return;
        }
      }
      abort := ReadAt(blk, lg);
    }

    /** With the position in block `lg`: read on from inside the block, or start a new range. */
    method ReadAt(blk: nat, lg: nat) returns (abort: bool)
      requires Content() && BlockSized(disk, bs) && rangeStart == 0 && rangeCount == 0
      requires blk == m(lg) != 0 && lastLogical == lg && Size(bs, lg) <= pos < Size(bs, lg) + bs && (max > 0 || total == 0)
      modifies this`pos, this`total, this`max, this`out, this`rangeStart, this`rangeCount, this`lastLogical, buffer
      ensures if abort then Enough(lg + 1) else More(lg + 1)
    {
      hide IsData, ByteAt, Content, BlockOf;
      BlockOfIs(bs, pos, lg);
      // the position is inside this block
      if pos > Size(bs, BlockOf(bs, pos)) {
        abort := ReadUnaligned(blk, lg);
        return;
      }
      // create a new range
      rangeStart, rangeCount := blk, 1;
      SizeStep(bs, 1);
      SizeNone(bs);
      abort := bs >= max;
    }
  
    /** All that is wanted, or all there is up to block `next`, has been read. */
    lemma ReadAll(next: nat, abort: bool)
      requires if abort then Enough(next) && rangeStart == 0 else More(next) && Idle(next)
      ensures var end := Size(bs, next);
              total == if end <= begin then 0 else if end - begin < size then end - begin else size
    {
      if total == 0 && next <= lastLogical { SizeMono(bs, next, lastLogical); }
    }

    /** Call the callback for the blocks of the file until it aborts. */
    method Iterate(calls: seq<Call>, ghost hi: nat) returns (abort: bool, ghost next: nat)
      requires More(0) && Lists(calls, m, 0, hi) && Size(bs, hi) <= WORD
      modifies this`pos, this`total, this`max, this`out, this`rangeStart, this`rangeCount, this`lastLogical, buffer
      ensures if abort then Enough(next) && next <= End(calls) else More(next) && next == End(calls)
    {
      hide IsData, ByteAt, Content, BlockOf, Size, End, Lists, Enough, More;
      abort, next := false, 0;
      EndNone(calls);
      var k := 0;
      while k < |calls| && !abort
        invariant 0 <= k <= |calls| && next == End(calls[..k])
        invariant if abort then Enough(next) else More(next)
      {
        var c := calls[k];
        EndNext(calls, k);
        CallOK(calls, m, hi, k);
        if c.count >= 0 {
          Gap(calls, m, hi, k);
          SizeMono(bs, c.count + 1, hi);
        }
        abort := ReadIterator(c.blk, c.count, next);
        if c.count >= 0 { next := c.count + 1; }
        k := k + 1;
      }
      EndMono(calls, m, hi, k);
      assert calls[..|calls|] == calls;
    }

    /** Read up to `n` bytes into the buffer; `calls` are the blocks the iteration finds. */
    method Read(n: nat, calls: seq<Call>, ghost hi: nat) returns (r: nat)
      requires BlockSized(disk, bs) && n <= buffer.Length
      // the iteration refuses files of 4 GB and more
      requires Lists(calls, m, 0, hi) && Size(bs, End(calls)) <= WORD
      modifies this, buffer
      ensures r == Readable(bs, calls, old(pos), n) && pos == old(pos) + r
      ensures r <= n && IsData(disk, bs, m, old(pos), buffer[..r])
      ensures buffer[r..] == old(buffer[r..])
    {
      hide ByteAt, BlockOf, Size, End, Lists;
      rangeStart, rangeCount, lastLogical := 0, 0, BlockOf(bs, pos);
      total, max, out := 0, n, 0;
      begin, size, was := pos, n, buffer[..];
      SizeNone(bs);
      ListsEnd(calls, m, hi);
      var abort;
      ghost var next;
      abort, next := Iterate(calls, End(calls));
      if rangeStart != 0 {
        abort := ReadDumpRange(next);
      }
      ReadAll(next, abort);
      SizeMono(bs, next, End(calls));
      r := total;
    }
  }

  lemma EndNone(calls: seq<Call>)
    ensures End(calls[..0]) == 0
  {
  }

  lemma EndMono(calls: seq<Call>, m: nat -> nat, hi: nat, k: nat)
    requires Lists(calls, m, 0, hi) && k <= |calls|
    ensures End(calls[..k]) <= End(calls)
    decreases |calls| - k
  {
    hide End, Lists;
    if k < |calls| {
      EndNext(calls, k);
      if calls[k].count >= 0 { Gap(calls, m, hi, k); }
      EndMono(calls, m, hi, k + 1);
    } else {
      assert calls[..k] == calls;
    }
  }

  lemma CallOK(calls: seq<Call>, m: nat -> nat, hi: nat, k: nat)
    requires Lists(calls, m, 0, hi) && k < |calls|
    ensures calls[k].count >= 0 ==> calls[k].count < hi && calls[k].blk == m(calls[k].count) != 0
  {
  }

  lemma SizeStep(bs: nat, n: nat)
    requires n > 0
    ensures Size(bs, n) == Size(bs, n - 1) + bs
  {
  }

  lemma SizeNext(bs: nat, n: nat)
    ensures Size(bs, n + 1) == Size(bs, n) + bs
  {
  }

  lemma SizeNone(bs: nat)
    ensures Size(bs, 0) == 0
  {
  }

  lemma CopiedIn(was: seq<byte>, now: seq<byte>, at: nat, data: seq<byte>)
    requires at + |data| <= |was| == |now|
    requires forall k :: 0 <= k < |data| ==> now[at + k] == data[k]
    requires forall k :: 0 <= k < at || at + |data| <= k < |was| ==> now[k] == was[k]
    ensures now == was[..at] + data + was[at + |data|..]
  {
    var r := was[..at] + data + was[at + |data|..];
    forall k | 0 <= k < |now| ensures now[k] == r[k] {
      if at <= k < at + |data| { assert now[at + (k - at)] == data[k - at]; }
    }
    assert now == r;
  }
}
