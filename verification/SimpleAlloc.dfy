/** The boot wrapper's allocator (a simple realloc): a table of blocks, updated in place. */
module SimpleAlloc {
  import opened Bits
  import opened AllocTable

  lemma MallocAt(h: Heap, size: nat, need: nat, i: nat)
    requires 0 < h.gran <= h.word && 0 < size < h.word && need == AlignUp(h.word, size, h.gran)
    requires i <= |h.tbl|
    ensures FirstFit(h.tbl, need) == i ==>
              Malloc(h, size) ==
              if i == |h.tbl| then (h, NULL)
              else if h.tbl[i].used then (h.(tbl := h.tbl[i := h.tbl[i].(live := true)]), h.tbl[i].base)
              else if need <= h.left then
                (h.(tbl := h.tbl[i := Entry(true, true, h.next, need)], next := h.next + need, left := h.left - need), h.next)
              else (h, NULL)
  {
    hide FirstFit;
  }

  lemma MallocNone(h: Heap)
    requires 0 < h.gran <= h.word
    ensures Malloc(h, 0) == (h, NULL)
  {
  }

  class Allocator {
    const word: nat
    const allocMin: nat
    const allocTbl: array<Entry>
    var nextBase: nat
    var spaceLeft: nat

    /** All memory, the heap included. */
    var mem: nat -> byte

    ghost const origin: nat
    ghost const total: nat

    /** The allocator's state as a value. */
    ghost function View(): Heap
      reads this, allocTbl
    {
      Heap(word, origin, total, allocMin, allocTbl[..], nextBase, spaceLeft, mem)
    }

    /** Start with an unused table of `maxAllocs` entries at `base` and the heap behind it. */
    constructor (word: nat, base: nat, heapSize: nat, granularity: nat, maxAllocs: nat, entrySize: nat, mem: nat -> byte)
      requires 8 <= word && 0 < granularity <= word && 0 < base
      // nothing wraps around: the table and the heap fit behind `base`
      requires heapSize + granularity <= word
      requires base + 8 + maxAllocs * entrySize + granularity + heapSize + granularity <= word
      ensures Valid(View()) && fresh(allocTbl)
      ensures |View().tbl| == maxAllocs && View().word == word && View().gran == granularity
      ensures UsedCount(View().tbl) == 0 && View().mem == mem
      ensures heapSize <= spaceLeft < heapSize + granularity
      ensures base + maxAllocs * entrySize <= nextBase < base + 8 + maxAllocs * entrySize + granularity
    {
      this.word, allocMin, this.mem := word, granularity, mem;
      var size := AlignUp(word, heapSize, granularity);
      allocTbl := new Entry[maxAllocs](_ => Entry(false, false, 0, 0));
      var table := AlignUp(word, base, 8);
      var start := AlignUp(word, table + maxAllocs * entrySize, granularity);
      nextBase, spaceLeft := start, size;
      origin, total := start, size;
      new;
      UsedCountIs(View().tbl, 0);
    }

    /** A block of at least `size` bytes, or NULL. */
    method SimpleMalloc(size: nat) returns (ptr: nat)
      requires Valid(View()) && size < word
      modifies this`nextBase, this`spaceLeft, allocTbl
      ensures (View(), ptr) == Malloc(old(View()), size)
      ensures Valid(View())
    {
      hide AllocTable.Valid, AlignUp, Aligned, Malloc, UsedCount;
      ghost var h := View();
      ValidFacts(h);
      MallocValid(h, size);
      if size == 0 {
        MallocNone(h);
        return NULL;
      }
      var need := AlignUp(word, size, allocMin);
      var i := 0;
      while i < allocTbl.Length
        invariant 0 <= i <= allocTbl.Length && View() == h
        invariant FirstFit(h.tbl, need) == i + FirstFit(h.tbl[i..], need)
      {
        var p := allocTbl[i];
        assert h.tbl[i..][0] == p && h.tbl[i..][1..] == h.tbl[i + 1..];
        MallocAt(h, size, need, i);
        if !p.used {
          if need <= spaceLeft {
            allocTbl[i] := Entry(true, true, nextBase, need);
            ptr := nextBase;
            nextBase, spaceLeft := nextBase + need, spaceLeft - need;
            return;
          }
          return NULL;
        } else if !p.live && need <= p.size {
          allocTbl[i] := p.(live := true);
          return p.base;
        }
        i := i + 1;
      }
      MallocAt(h, size, need, i);
      return NULL;
    }

    /** The entry of a block that is handed out. */
    method SimpleFindEntry(ptr: nat) returns (i: nat)
      ensures i == Lookup(allocTbl[..], ptr)
    {
      i := 0;
      while i < allocTbl.Length
        invariant 0 <= i <= allocTbl.Length
        invariant Lookup(allocTbl[..], ptr) == i + Lookup(allocTbl[i..], ptr)
      {
        var p := allocTbl[i];
        assert allocTbl[i..][0] == p && allocTbl[i..][1..] == allocTbl[i + 1..];
        if !p.used {
          return allocTbl.Length;
        }
        if p.live && p.base == ptr {
          return;
        }
        i := i + 1;
      }
    }

    method SimpleFree(ptr: nat)
      requires Valid(View())
      modifies allocTbl
      ensures View() == Free(old(View()), ptr)
      ensures Valid(View())
    {
      ghost var h := View();
      FreeValid(h, ptr);
      var i := SimpleFindEntry(ptr);
      if i < allocTbl.Length {
        allocTbl[i] := allocTbl[i].(live := false);
        assert allocTbl[..] == h.tbl[i := h.tbl[i].(live := false)];
      }
    }

    /** Change the size of the block at `ptr`. */
    method SimpleRealloc(ptr: nat, size: nat) returns (dst: nat)
      requires Valid(View()) && size < word
      modifies this`nextBase, this`spaceLeft, this`mem, allocTbl
      ensures (View(), dst) == Realloc(old(View()), ptr, size)
      ensures Valid(View())
    {
      hide AllocTable.Valid, Malloc, Free, Lookup;
      ghost var h := View();
      ValidFacts(h);
      ReallocValid(h, ptr, size);
      if size == 0 {
        SimpleFree(ptr);
        return NULL;
      }
      if ptr == NULL {
        dst := SimpleMalloc(size);
        return;
      }
      var i := SimpleFindEntry(ptr);
      if i == allocTbl.Length {
        return NULL;
      }
      if size <= allocTbl[i].size {
        return ptr;
      }
      var n := allocTbl[i].size;
      dst := SimpleMalloc(size);
      CopyValid(View(), Copied(mem, dst, ptr, n));
      mem := Copied(mem, dst, ptr, n);
      SimpleFree(ptr);
    }
  }
}
