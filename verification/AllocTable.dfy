/** The boot wrapper's allocator as functions on its table, and what holds of every run. */
module AllocTable {
  import opened Bits
  import opened Division

  /** An entry that has been used keeps its base and size for good; `live` says whether its
    * block is handed out now. */
  datatype Entry = Entry(used: bool, live: bool, base: nat, size: nat)

  /** `word` is one more than the largest address or size; `origin` and `total` are where the
    * heap starts and how large it is; sizes are multiples of `gran`, a power of two.  `mem` is
    * all memory. */
  datatype Heap = Heap(word: nat, origin: nat, total: nat, gran: nat, tbl: seq<Entry>, next: nat, left: nat, mem: nat -> byte)

  const NULL: nat := 0

  /** `x` is a multiple of `a`. */
  predicate Aligned(x: nat, a: nat)
    requires a > 0
    decreases x
  {
    x == 0 || (x >= a && Aligned(x - a, a))
  }

  /** Clearing the low bits: the largest multiple of `a` up to `x`. */
  function RoundDown(x: nat, a: nat): (r: nat)
    requires a > 0
    ensures Aligned(r, a) && r <= x < r + a
    decreases x
  {
    if x < a then 0 else a + RoundDown(x - a, a)
  }

  /** Round up to a multiple of `a`, in machine words. */
  function AlignUp(word: nat, x: nat, a: nat): (r: nat)
    requires 0 < a <= word && x < word
    ensures Aligned(r, a)
    ensures x + a <= word ==> x <= r < x + a
    ensures x + a > word ==> r == 0
  {
    var y := x + (a - 1);
    RoundDown(if y >= word then y - word else y, a)
  }

  lemma {:induction false} SumAligned(x: nat, y: nat, a: nat)
    requires a > 0 && Aligned(x, a) && Aligned(y, a)
    ensures Aligned(x + y, a)
    decreases x
  {
    if x > 0 {
      SumAligned(x - a, y, a);
      assert x + y - a == x - a + y;
    }
  }

  lemma {:induction false} AlignedDivides(x: nat, a: nat)
    requires a > 0
    ensures Aligned(x, a) <==> x % a == 0
    decreases x
  {
    if x >= a {
      AlignedDivides(x - a, a);
      ModuloLess(x, a);
    }
  }

  // ----- The table

  /** The sizes of the first `n` blocks together. */
  function Extent(tbl: seq<Entry>, n: nat): nat
    requires n <= |tbl|
  {
    if n == 0 then 0 else Extent(tbl, n - 1) + tbl[n - 1].size
  }

  /** The number of entries used: they come first. */
  function UsedCount(tbl: seq<Entry>): (n: nat)
    ensures n <= |tbl|
    ensures forall i :: 0 <= i < n ==> tbl[i].used
    ensures n < |tbl| ==> !tbl[n].used
  {
    if |tbl| == 0 || !tbl[0].used then 0 else 1 + UsedCount(tbl[1..])
  }

  /** Used entries are a prefix of the table, their blocks adjacent and aligned from the start of
    * the heap; what they do not take is what is left. */
  ghost predicate Valid(h: Heap) {
    var n := UsedCount(h.tbl);
    && 0 < h.gran <= h.word
    && 0 < h.origin && h.origin + h.total <= h.word
    && Aligned(h.origin, h.gran) && Aligned(h.total, h.gran)
    && (forall i :: n <= i < |h.tbl| ==> !h.tbl[i].used && !h.tbl[i].live)
    && (forall i :: 0 <= i < n ==> h.tbl[i].base == h.origin + Extent(h.tbl, i) && Aligned(h.tbl[i].size, h.gran))
    && h.next == h.origin + Extent(h.tbl, n)
    && Extent(h.tbl, n) + h.left == h.total
  }

  lemma {:induction false} ExtentMono(tbl: seq<Entry>, i: nat, j: nat)
    requires i <= j <= |tbl|
    ensures Extent(tbl, i) <= Extent(tbl, j)
    decreases j - i
  {
    if i < j { ExtentMono(tbl, i, j - 1); }
  }

  lemma {:induction false} ExtentSame(t: seq<Entry>, u: seq<Entry>, n: nat)
    requires n <= |t| && n <= |u| && forall i :: 0 <= i < n ==> t[i].size == u[i].size
    ensures Extent(t, n) == Extent(u, n)
  {
    if n > 0 { ExtentSame(t, u, n - 1); }
  }

  lemma {:induction false} ExtentAligned(h: Heap, n: nat)
    requires n <= |h.tbl| && h.gran > 0 && forall i :: 0 <= i < n ==> Aligned(h.tbl[i].size, h.gran)
    ensures Aligned(Extent(h.tbl, n), h.gran)
  {
    if n > 0 {
      ExtentAligned(h, n - 1);
      SumAligned(Extent(h.tbl, n - 1), h.tbl[n - 1].size, h.gran);
    }
  }

  lemma {:induction false} UsedCountIs(tbl: seq<Entry>, n: nat)
    requires n <= |tbl| && (forall i :: 0 <= i < n ==> tbl[i].used) && (n < |tbl| ==> !tbl[n].used)
    ensures UsedCount(tbl) == n
  {
    if n > 0 { UsedCountIs(tbl[1..], n - 1); }
  }

  // ----- Operations

  /** The first entry that can take `size` bytes, or the first unused entry, or the table's end. */
  function FirstFit(tbl: seq<Entry>, size: nat): (i: nat)
    ensures i <= |tbl|
    ensures forall j :: 0 <= j < i ==> tbl[j].used && (tbl[j].live || tbl[j].size < size)
    ensures i < |tbl| ==> !tbl[i].used || (!tbl[i].live && size <= tbl[i].size)
  {
    if |tbl| == 0 || !tbl[0].used || (!tbl[0].live && size <= tbl[0].size) then 0
    else 1 + FirstFit(tbl[1..], size)
  }

  /** The first live entry with the given base, among the used ones, or the table's size. */
  function Lookup(tbl: seq<Entry>, ptr: nat): (i: nat)
    ensures i <= |tbl|
    ensures i < |tbl| ==> tbl[i].used && tbl[i].live && tbl[i].base == ptr
    ensures i < |tbl| ==> forall j :: 0 <= j < i ==> tbl[j].used && !(tbl[j].live && tbl[j].base == ptr)
    ensures i == |tbl| ==> forall j :: 0 <= j < UsedCount(tbl) ==> !(tbl[j].live && tbl[j].base == ptr)
  {
    if |tbl| == 0 || !tbl[0].used then |tbl|
    else if tbl[0].live && tbl[0].base == ptr then 0
    else 1 + Lookup(tbl[1..], ptr)
  }

  function Malloc(h: Heap, size: nat): (r: (Heap, nat))
    requires 0 < h.gran <= h.word && size < h.word
  {
    if size == 0 then (h, NULL)
    else
      var need := AlignUp(h.word, size, h.gran);
      var i := FirstFit(h.tbl, need);
      if i == |h.tbl| then (h, NULL)
      else if h.tbl[i].used then (h.(tbl := h.tbl[i := h.tbl[i].(live := true)]), h.tbl[i].base)
      else if need <= h.left then
        (h.(tbl := h.tbl[i := Entry(true, true, h.next, need)], next := h.next + need, left := h.left - need), h.next)
      else (h, NULL)
  }

  function Free(h: Heap, ptr: nat): Heap {
    var i := Lookup(h.tbl, ptr);
    if i < |h.tbl| then h.(tbl := h.tbl[i := h.tbl[i].(live := false)]) else h
  }

  /** `n` bytes copied from `src` to `dst`. */
  function Copied(mem: nat -> byte, dst: nat, src: nat, n: nat): nat -> byte {
    (a: nat) => if dst <= a < dst + n then mem(src + (a - dst)) else mem(a)
  }

  function Realloc(h: Heap, ptr: nat, size: nat): (r: (Heap, nat))
    requires 0 < h.gran <= h.word && size < h.word
  {
    if size == 0 then (Free(h, ptr), NULL)
    else if ptr == NULL then Malloc(h, size)
    else
      var i := Lookup(h.tbl, ptr);
      if i == |h.tbl| then (h, NULL)
      else if size <= h.tbl[i].size then (h, ptr)
      else
        var (h', dst) := Malloc(h, size);
        // also when there is no new block: then the copy goes to address zero
        (Free(h'.(mem := Copied(h.mem, dst, ptr, h.tbl[i].size)), ptr), dst)
  }

  // ----- Every operation keeps the table in order

  lemma UsedFirst(tbl: seq<Entry>, i: nat)
    requires i < |tbl| && forall j :: 0 <= j <= i ==> tbl[j].used
    ensures i < UsedCount(tbl)
  {
    var n := UsedCount(tbl);
  }

  lemma LookupUsed(h: Heap, ptr: nat)
    ensures Lookup(h.tbl, ptr) < |h.tbl| ==> Lookup(h.tbl, ptr) < UsedCount(h.tbl)
  {
    var i := Lookup(h.tbl, ptr);
    if i < |h.tbl| { UsedFirst(h.tbl, i); }
  }

  /** Blocks lie inside the heap. */
  lemma {:induction false} BlockInside(h: Heap, i: nat)
    requires Valid(h) && i < UsedCount(h.tbl)
    ensures h.origin <= h.tbl[i].base && h.tbl[i].base + h.tbl[i].size <= h.origin + h.total - h.left
    ensures Aligned(h.tbl[i].base, h.gran)
  {
    hide Aligned;
    ExtentMono(h.tbl, i + 1, UsedCount(h.tbl));
    ExtentAligned(h, i);
    SumAligned(h.origin, Extent(h.tbl, i), h.gran);
  }

  /** Blocks are pairwise disjoint, whether handed out or not. */
  lemma BlocksDisjoint(h: Heap, i: nat, j: nat)
    requires Valid(h) && i < j < UsedCount(h.tbl)
    ensures h.tbl[i].base + h.tbl[i].size <= h.tbl[j].base
  {
    ExtentMono(h.tbl, i + 1, j);
  }

  /** Setting and clearing live marks of used entries. */
  lemma MarkValid(h: Heap, i: nat, live: bool)
    requires Valid(h) && i < UsedCount(h.tbl)
    ensures Valid(h.(tbl := h.tbl[i := h.tbl[i].(live := live)]))
    ensures UsedCount(h.tbl[i := h.tbl[i].(live := live)]) == UsedCount(h.tbl)
  {
    hide UsedCount, Aligned;
    var t := h.tbl[i := h.tbl[i].(live := live)];
    var n := UsedCount(h.tbl);
    UsedCountIs(t, n);
    forall j | 0 <= j <= n ensures Extent(t, j) == Extent(h.tbl, j) { ExtentSame(t, h.tbl, j); }
    hide Extent;
  }

  /** Taking a new block off the rest of the heap. */
  lemma NewValid(h: Heap, need: nat)
    requires Valid(h) && UsedCount(h.tbl) < |h.tbl| && need <= h.left && Aligned(need, h.gran)
    ensures Valid(h.(tbl := h.tbl[UsedCount(h.tbl) := Entry(true, true, h.next, need)],
                     next := h.next + need, left := h.left - need))
  {
    hide Aligned, UsedCount;
    var n := UsedCount(h.tbl);
    var t := h.tbl[n := Entry(true, true, h.next, need)];
    UsedCountIs(t, n + 1);
    forall j | 0 <= j <= n ensures Extent(t, j) == Extent(h.tbl, j) { ExtentSame(t, h.tbl, j); }
    ExtentStep(t, n);
    hide Extent;
    forall i | 0 <= i <= n ensures t[i].base == h.origin + Extent(t, i) && Aligned(t[i].size, h.gran) {
      if i < n { assert t[i] == h.tbl[i]; }
    }
  }

  lemma ExtentStep(tbl: seq<Entry>, n: nat)
    requires n < |tbl|
    ensures Extent(tbl, n + 1) == Extent(tbl, n) + tbl[n].size
  {
  }

  lemma MallocValid(h: Heap, size: nat)
    requires Valid(h) && size < h.word
    ensures Valid(Malloc(h, size).0)
  {
    if size > 0 {
      var need := AlignUp(h.word, size, h.gran);
      var i := FirstFit(h.tbl, need);
      var n := UsedCount(h.tbl);
      if i < |h.tbl| {
        if h.tbl[i].used {
          assert i < n;
          MarkValid(h, i, true);
        } else if need <= h.left {
          assert i == n;
          NewValid(h, need);
        }
      }
    }
  }

  lemma FreeValid(h: Heap, ptr: nat)
    requires Valid(h)
    ensures Valid(Free(h, ptr))
  {
    LookupUsed(h, ptr);
    var i := Lookup(h.tbl, ptr);
    if i < |h.tbl| { MarkValid(h, i, false); }
  }

  /** `ptr` is entry `j`, which was not handed out before; nothing else in the table changed. */
  ghost predicate Taken(h: Heap, h': Heap, ptr: nat, j: nat)
    requires h'.gran > 0
  {
    && j < UsedCount(h'.tbl) && |h'.tbl| == |h.tbl| && !h.tbl[j].live
    && h'.tbl == h.tbl[j := h'.tbl[j]] && h'.tbl[j].live && h'.tbl[j].base == ptr
    && Aligned(ptr, h'.gran) && h'.origin <= ptr && ptr + h'.tbl[j].size <= h'.origin + h'.total
  }

  /** It is the first that can take it, or else the next one never used. */
  lemma MallocFirst(h: Heap, size: nat)
    requires 0 < h.gran <= h.word && size < h.word && Malloc(h, size).1 != NULL
    ensures var (h', ptr) := Malloc(h, size);
            var need := AlignUp(h.word, size, h.gran);
            exists i ::
              && 0 <= i < |h.tbl| && h'.tbl == h.tbl[i := h'.tbl[i]] && h'.tbl[i].used && h'.tbl[i].live && h'.tbl[i].base == ptr
              && (forall j :: 0 <= j < i ==> h.tbl[j].used && (h.tbl[j].live || h.tbl[j].size < need))
              && if h.tbl[i].used then !h.tbl[i].live && need <= h.tbl[i].size == h'.tbl[i].size && ptr == h.tbl[i].base
                 else ptr == h.next && h'.tbl[i].size == need <= h.left
  {
    hide AlignUp;
    var i := FirstFit(h.tbl, AlignUp(h.word, size, h.gran));
    assert Malloc(h, size).0.tbl == h.tbl[i := Malloc(h, size).0.tbl[i]];
  }

  /** A block handed out before stays as it is. */
  lemma TakenFacts(h: Heap, h': Heap, ptr: nat, j: nat, i: nat)
    requires Valid(h) && Valid(h') && Taken(h, h', ptr, j)
    requires i < UsedCount(h.tbl) && h.tbl[i].live
    ensures i != j && i < UsedCount(h'.tbl) && h'.tbl[i] == h.tbl[i]
    ensures j < i && h'.tbl[j].size > 0 ==> h'.tbl[j].base < h.tbl[i].base
  {
    hide Aligned;
    assert h'.tbl[i] == h.tbl[i];
    if j < i { BlocksDisjoint(h', j, i); }
  }

  /** When an allocation succeeds, and what it returns: a block that was not handed out, inside
    * the heap, aligned, and as large as was asked for unless rounding up wrapped around. */
  lemma MallocIs(h: Heap, size: nat)
    requires Valid(h) && size < h.word
    ensures Valid(Malloc(h, size).0)
    ensures var (h', ptr) := Malloc(h, size);
            var need := AlignUp(h.word, size, h.gran);
            && (ptr == NULL <==>
                  || size == 0
                  || ((forall j :: 0 <= j < UsedCount(h.tbl) ==> h.tbl[j].live || h.tbl[j].size < need)
                      && (UsedCount(h.tbl) == |h.tbl| || need > h.left)))
            && (ptr == NULL ==> h' == h)
            && (ptr != NULL ==> exists j: nat :: Taken(h, h', ptr, j) && (size + h.gran <= h.word ==> size <= h'.tbl[j].size))
            && h'.mem == h.mem && h'.origin == h.origin && h'.total == h.total && h'.gran == h.gran && h'.word == h.word
            && |h'.tbl| == |h.tbl|
  {
    var need := AlignUp(h.word, size, h.gran);
    var n := UsedCount(h.tbl);
    var i := FirstFit(h.tbl, need);
    var (h', ptr) := Malloc(h, size);
    MallocValid(h, size);
    if size > 0 && i < |h.tbl| && (h.tbl[i].used || need <= h.left) {
      if h.tbl[i].used {
        assert i < n;
        MarkValid(h, i, true);
      } else {
        assert i == n;
        UsedCountIs(h'.tbl, n + 1);
      }
      BlockInside(h', i);
      assert Taken(h, h', ptr, i);
    }
  }

  // ----- Resizing

  lemma LookupMarked(t: seq<Entry>, u: seq<Entry>, ptr: nat, i: nat)
    requires |t| == |u| && i == Lookup(t, ptr) < |t|
    requires forall j :: 0 <= j <= i ==> u[j].used && (u[j].live && u[j].base == ptr <==> j == i)
    ensures Lookup(u, ptr) == i
  {
    var k := Lookup(u, ptr);
    UsedFirst(u, i);
    assert u[i].live && u[i].base == ptr;
  }

  lemma CopyValid(h: Heap, mem: nat -> byte)
    requires Valid(h)
    ensures Valid(h.(mem := mem))
  {
  }

  lemma ValidFacts(h: Heap)
    requires Valid(h)
    ensures 0 < h.gran <= h.word && 0 < h.origin
  {
  }

  /** The old block is still found under its pointer once the new one is taken. */
  lemma StillFound(h: Heap, m: Heap, dst: nat, j: nat, ptr: nat, i: nat)
    requires Valid(h) && Valid(m) && Taken(h, m, dst, j) && m.tbl[j].size > 0
    requires Lookup(h.tbl, ptr) == i < |h.tbl|
    ensures i != j && m.tbl[i] == h.tbl[i] && Lookup(m.tbl, ptr) == i
  {
    hide Aligned, Valid, Lookup;
    LookupUsed(h, ptr);
    TakenFacts(h, m, dst, j, i);
    forall k | 0 <= k <= i ensures m.tbl[k].used && (m.tbl[k].live && m.tbl[k].base == ptr <==> k == i) {
      assert k != j ==> m.tbl[k] == h.tbl[k];
    }
    LookupMarked(h.tbl, m.tbl, ptr, i);
  }

  /** The table after block `i` has moved to block `j`. */
  ghost predicate Moved(t: seq<Entry>, t': seq<Entry>, i: nat, j: nat, dst: nat, size: nat)
  {
    && i < |t| && j < |t| && j != i && |t'| == |t| && !t[j].live
    && t' == t[i := t[i].(live := false)][j := t'[j]]
    && t'[j].used && t'[j].live && t'[j].base == dst && size <= t'[j].size
  }

  /** A block that grows: the old content is in the new block, the old block is free, and every
    * other block and all other memory is as before. */
  lemma ReallocMoves(h: Heap, ptr: nat, size: nat)
    requires Valid(h) && size + h.gran <= h.word && ptr != NULL
    requires var i := Lookup(h.tbl, ptr); i < |h.tbl| && size > h.tbl[i].size
    requires Realloc(h, ptr, size).1 != NULL
    ensures var i := Lookup(h.tbl, ptr);
            var (h', dst) := Realloc(h, ptr, size);
            && Valid(h') && (exists j: nat :: Moved(h.tbl, h'.tbl, i, j, dst, size))
            && (forall a: nat :: ptr <= a < ptr + h.tbl[i].size ==> h'.mem(dst + (a - ptr)) == h.mem(a))
            && (forall a: nat :: !(dst <= a < dst + h.tbl[i].size) ==> h'.mem(a) == h.mem(a))
  {
    hide Aligned, Valid, Malloc, Lookup, Copied, Moved, Realloc, Free;
    var i := Lookup(h.tbl, ptr);
    ValidFacts(h);
    LookupUsed(h, ptr);
    var (m, dst) := Malloc(h, size);
    ReallocIs(h, ptr, size);
    MallocIs(h, size);
    var j: nat :| Taken(h, m, dst, j) && size <= m.tbl[j].size;
    StillFound(h, m, dst, j, ptr, i);
    var c := m.(mem := Copied(h.mem, dst, ptr, h.tbl[i].size));
    CopyValid(m, c.mem);
    FreeValid(c, ptr);
    CopiedIs(h.mem, dst, ptr, h.tbl[i].size);
    MovedIs(h, m, c, ptr, i, j, dst, size);
  }

  lemma ReallocIs(h: Heap, ptr: nat, size: nat)
    requires 0 < h.gran <= h.word && size < h.word && ptr != NULL
    requires Lookup(h.tbl, ptr) < |h.tbl| && size > h.tbl[Lookup(h.tbl, ptr)].size
    ensures var (m, dst) := Malloc(h, size);
            Realloc(h, ptr, size) == (Free(m.(mem := Copied(h.mem, dst, ptr, h.tbl[Lookup(h.tbl, ptr)].size)), ptr), dst)
  {
    hide Malloc, Lookup, Copied, Free;
  }

  lemma CopiedIs(mem: nat -> byte, dst: nat, src: nat, n: nat)
    ensures forall a: nat :: src <= a < src + n ==> Copied(mem, dst, src, n)(dst + (a - src)) == mem(a)
    ensures forall a: nat :: !(dst <= a < dst + n) ==> Copied(mem, dst, src, n)(a) == mem(a)
  {
  }

  lemma MovedIs(h: Heap, m: Heap, c: Heap, ptr: nat, i: nat, j: nat, dst: nat, size: nat)
    requires m.gran > 0 && Taken(h, m, dst, j) && i != j && i < |h.tbl| && size <= m.tbl[j].size
    requires c == m.(mem := c.mem) && Lookup(m.tbl, ptr) == i
    ensures Moved(h.tbl, Free(c, ptr).tbl, i, j, dst, size) && Free(c, ptr).mem == c.mem
  {
    hide Lookup, Aligned;
    UsedLive(m, j);
  }

  lemma UsedLive(h: Heap, j: nat)
    requires j < UsedCount(h.tbl)
    ensures h.tbl[j].used
  {
  }

  /** A block that cannot grow is lost: it is freed although no new block is returned, and its
    * content is copied to address zero. */
  lemma ReallocLoses(h: Heap, ptr: nat, size: nat)
    requires Valid(h) && size < h.word && ptr != NULL
    requires var i := Lookup(h.tbl, ptr); i < |h.tbl| && size > h.tbl[i].size
    requires Malloc(h, size).1 == NULL
    ensures var i := Lookup(h.tbl, ptr);
            Realloc(h, ptr, size) == (h.(tbl := h.tbl[i := h.tbl[i].(live := false)],
                                         mem := Copied(h.mem, 0, ptr, h.tbl[i].size)), NULL)
  {
    hide Aligned, Valid, AlignUp;
    ValidFacts(h);
    MallocIs(h, size);
  }

  /** Rounding the largest sizes up wraps around to nothing: such a request is granted whenever
    * some entry of the table is not handed out, and its block is always smaller than asked for. */
  lemma WrappedRequest(h: Heap, size: nat)
    requires Valid(h) && size < h.word < size + h.gran
    ensures var (h', ptr) := Malloc(h, size);
            && (ptr != NULL <==> exists i :: 0 <= i < |h.tbl| && !h.tbl[i].live)
            && (ptr != NULL ==> exists j: nat :: Taken(h, h', ptr, j) && h'.tbl[j].size < size)
  {
    var need := AlignUp(h.word, size, h.gran);
    var i := FirstFit(h.tbl, need);
    MallocIs(h, size);
    var (h', ptr) := Malloc(h, size);
    if ptr != NULL {
      var j: nat :| Taken(h, h', ptr, j);
      OriginBound(h);
      assert !h.tbl[j].live;
    }
  }

  /** The heap does not start below one granule. */
  lemma OriginBound(h: Heap)
    requires Valid(h)
    ensures h.origin >= h.gran
  {
  }

  // ----- Runs

  datatype Op =
    | Allocate(size: nat)
    | Release(ptr: nat)
    | Resize(ptr: nat, size: nat)
    | Store(addr: nat, value: byte)

  predicate Sized(word: nat, op: Op) {
    match op
    case Allocate(size) => size < word
    case Resize(_, size) => size < word
    case _ => true
  }

  function Step(h: Heap, op: Op): Heap
    requires Valid(h) && Sized(h.word, op)
  {
    match op
    case Allocate(size) => Malloc(h, size).0
    case Release(ptr) => Free(h, ptr)
    case Resize(ptr, size) => Realloc(h, ptr, size).0
    case Store(addr, value) => h.(mem := (a: nat) => if a == addr then value else h.mem(a))
  }

  /** The operation is about block `i`, writes into it, or may run over it: a resize does so if
    * its size wraps around or if it fails and the block is near address zero. */
  predicate Concerns(h: Heap, op: Op, i: nat)
    requires Valid(h) && Sized(h.word, op) && i < |h.tbl|
  {
    match op
    case Allocate(_) => false
    case Release(ptr) => Lookup(h.tbl, ptr) == i
    case Resize(ptr, size) =>
      var k := Lookup(h.tbl, ptr);
      || (ptr == NULL && size == 0 && k == i)
      || (ptr != NULL && k == i)
      || (ptr != NULL && k < |h.tbl| && size > h.tbl[k].size
          && (size + h.gran > h.word || (Malloc(h, size).1 == NULL && h.tbl[i].base < h.tbl[k].size)))
    case Store(addr, _) => h.tbl[i].base <= addr < h.tbl[i].base + h.tbl[i].size
  }

  /** Block `i` is handed out in both heaps, at the same place and with the same content. */
  ghost predicate Kept(h: Heap, h': Heap, i: nat) {
    && i < |h.tbl| == |h'.tbl| && h.tbl[i].used && h.tbl[i].live && h'.tbl[i] == h.tbl[i]
    && (forall a: nat :: h.tbl[i].base <= a < h.tbl[i].base + h.tbl[i].size ==> h'.mem(a) == h.mem(a))
    && h'.word == h.word && h'.gran == h.gran && h'.origin == h.origin && h'.total == h.total
  }

  lemma ReallocValid(h: Heap, ptr: nat, size: nat)
    requires Valid(h) && size < h.word
    ensures Valid(Realloc(h, ptr, size).0)
  {
    hide Valid, Malloc, Lookup, Free;
    ValidFacts(h);
    FreeValid(h, ptr);
    MallocValid(h, size);
    var i := Lookup(h.tbl, ptr);
    if i < |h.tbl| {
      var (m, dst) := Malloc(h, size);
      CopyValid(m, Copied(h.mem, dst, ptr, h.tbl[i].size));
      FreeValid(m.(mem := Copied(h.mem, dst, ptr, h.tbl[i].size)), ptr);
    }
  }

  lemma StepValid(h: Heap, op: Op)
    requires Valid(h) && Sized(h.word, op)
    ensures Valid(Step(h, op))
  {
    hide Valid, Malloc, Free, Realloc;
    ValidFacts(h);
    match op {
      case Allocate(size) => MallocValid(h, size);
      case Release(ptr) => FreeValid(h, ptr);
      case Resize(ptr, size) => ReallocValid(h, ptr, size);
      case Store(addr, value) => CopyValid(h, Step(h, op).mem);
    }
  }

  lemma AllocateKeeps(h: Heap, size: nat, i: nat)
    requires Valid(h) && size < h.word && i < |h.tbl| && h.tbl[i].used && h.tbl[i].live
    ensures Kept(h, Malloc(h, size).0, i)
  {
    hide Valid, Malloc, Aligned, AlignUp;
    ValidFacts(h);
    MallocIs(h, size);
  }

  lemma ReleaseKeeps(h: Heap, ptr: nat, i: nat)
    requires i < |h.tbl| && h.tbl[i].used && h.tbl[i].live && Lookup(h.tbl, ptr) != i
    ensures Kept(h, Free(h, ptr), i)
  {
  }

  lemma SameHeap(h: Heap, ptr: nat, size: nat)
    requires 0 < h.gran <= h.word && size < h.word
    ensures var h' := Realloc(h, ptr, size).0;
            h'.word == h.word && h'.gran == h.gran && h'.origin == h.origin && h'.total == h.total && |h'.tbl| == |h.tbl|
  {
    hide Lookup, FirstFit, Aligned, AlignUp, Copied;
  }

  /** A block that moves does not touch the others. */
  lemma MovesPast(h: Heap, ptr: nat, size: nat, i: nat)
    requires Valid(h) && size + h.gran <= h.word && ptr != NULL
    requires i < |h.tbl| && h.tbl[i].used && h.tbl[i].live
    requires var k := Lookup(h.tbl, ptr); k < |h.tbl| && size > h.tbl[k].size && k != i
    requires Realloc(h, ptr, size).1 != NULL
    ensures Kept(h, Realloc(h, ptr, size).0, i)
  {
    hide Valid, Malloc, Aligned, AlignUp, Lookup, Copied, Free, Realloc;
    ValidFacts(h);
    var k := Lookup(h.tbl, ptr);
    var (h', dst) := Realloc(h, ptr, size);
    ReallocMoves(h, ptr, size);
    SameHeap(h, ptr, size);
    var j: nat :| Moved(h.tbl, h'.tbl, k, j, dst, size);
    assert i != j && h'.tbl[i] == h.tbl[i];
    UsedTwo(h', i, j);
  }

  lemma UsedTwo(h: Heap, i: nat, j: nat)
    requires Valid(h) && i < |h.tbl| && j < |h.tbl| && i != j && h.tbl[i].used && h.tbl[j].used
    ensures h.tbl[i].base + h.tbl[i].size <= h.tbl[j].base || h.tbl[j].base + h.tbl[j].size <= h.tbl[i].base
  {
    if i < j { BlocksDisjoint(h, i, j); } else { BlocksDisjoint(h, j, i); }
  }

  lemma ResizeKeeps(h: Heap, ptr: nat, size: nat, i: nat)
    requires Valid(h) && size < h.word && i < |h.tbl| && h.tbl[i].used && h.tbl[i].live
    requires !Concerns(h, Resize(ptr, size), i)
    ensures Kept(h, Realloc(h, ptr, size).0, i)
  {
    hide Valid, Malloc, Aligned, AlignUp, Lookup, Copied, Free, Realloc, Kept;
    ValidFacts(h);
    ReallocCases(h, ptr, size);
    var k := Lookup(h.tbl, ptr);
    if size == 0 {
      ReleaseKeeps(h, ptr, i);
    } else if ptr == NULL {
      AllocateKeeps(h, size, i);
    } else if k == |h.tbl| || size <= h.tbl[k].size {
      KeptRefl(h, i);
    } else if Malloc(h, size).1 == NULL {
      LosesPast(h, ptr, size, i);
    } else {
      MovesPast(h, ptr, size, i);
    }
  }

  lemma KeptRefl(h: Heap, i: nat)
    requires i < |h.tbl| && h.tbl[i].used && h.tbl[i].live
    ensures Kept(h, h, i)
  {
  }

  lemma LosesPast(h: Heap, ptr: nat, size: nat, i: nat)
    requires Valid(h) && size < h.word && ptr != NULL
    requires i < |h.tbl| && h.tbl[i].used && h.tbl[i].live
    requires var k := Lookup(h.tbl, ptr);
             k < |h.tbl| && size > h.tbl[k].size && k != i && h.tbl[i].base >= h.tbl[k].size
    requires Malloc(h, size).1 == NULL
    ensures Kept(h, Realloc(h, ptr, size).0, i)
  {
    hide Valid, Malloc, Aligned, AlignUp, Lookup, Copied, Free, Realloc;
    var k := Lookup(h.tbl, ptr);
    ReallocLoses(h, ptr, size);
    CopiedIs(h.mem, 0, ptr, h.tbl[k].size);
  }

  lemma ReallocCases(h: Heap, ptr: nat, size: nat)
    requires 0 < h.gran <= h.word && size < h.word
    ensures size == 0 ==> Realloc(h, ptr, size) == (Free(h, ptr), NULL)
    ensures size > 0 && ptr == NULL ==> Realloc(h, ptr, size) == Malloc(h, size)
    ensures size > 0 && ptr != NULL && Lookup(h.tbl, ptr) == |h.tbl| ==> Realloc(h, ptr, size) == (h, NULL)
    ensures size > 0 && ptr != NULL && Lookup(h.tbl, ptr) < |h.tbl| ==>
              if size <= h.tbl[Lookup(h.tbl, ptr)].size then Realloc(h, ptr, size) == (h, ptr)
              else Realloc(h, ptr, size).1 == Malloc(h, size).1
  {
    hide Malloc, Lookup, Free, Copied;
  }

  lemma StepKeeps(h: Heap, op: Op, i: nat)
    requires Valid(h) && Sized(h.word, op) && i < |h.tbl| && h.tbl[i].used && h.tbl[i].live
    requires !Concerns(h, op, i)
    ensures Kept(h, Step(h, op), i)
  {
    hide Valid, Malloc, Aligned, AlignUp, Lookup, Copied, Free, Realloc;
    match op {
      case Allocate(size) => AllocateKeeps(h, size, i);
      case Release(ptr) => ReleaseKeeps(h, ptr, i);
      case Resize(ptr, size) => ResizeKeeps(h, ptr, size, i);
      case Store(_, _) =>
    }
  }

  /** The heap after a run of a program that uses it.  Every heap on the way is valid. */
  function Run(h: Heap, ops: seq<Op>): (r: Heap)
    requires Valid(h) && forall k :: 0 <= k < |ops| ==> Sized(h.word, ops[k])
    ensures Valid(r)
    decreases |ops|
  {
    if |ops| == 0 then h
    else
      StepValid(h, ops[0]);
      StepSame(h, ops[0]);
      assert forall k :: 0 <= k < |ops[1..]| ==> ops[1..][k] == ops[k + 1];
      Run(Step(h, ops[0]), ops[1..])
  }

  lemma StepSame(h: Heap, op: Op)
    requires Valid(h) && Sized(h.word, op)
    ensures Step(h, op).word == h.word && Step(h, op).gran == h.gran && |Step(h, op).tbl| == |h.tbl|
  {
    hide Lookup, FirstFit, Aligned, AlignUp, Copied, Valid, Realloc;
    ValidFacts(h);
    if op.Resize? { SameHeap(h, op.ptr, op.size); }
  }

  /** No operation of the run concerns block `i`. */
  ghost predicate Undisturbed(h: Heap, ops: seq<Op>, i: nat)
    requires Valid(h) && (forall k :: 0 <= k < |ops| ==> Sized(h.word, ops[k])) && i < |h.tbl|
    decreases |ops|
  {
    |ops| == 0 ||
    (StepValid(h, ops[0]);
     StepSame(h, ops[0]);
     assert forall k :: 0 <= k < |ops[1..]| ==> ops[1..][k] == ops[k + 1];
     !Concerns(h, ops[0], i) && Undisturbed(Step(h, ops[0]), ops[1..], i))
  }

  /** Whatever else a program does, a block it has been given stays its own: at the same place,
    * with the content it was left with. */
  lemma {:induction false} RunKeeps(h: Heap, ops: seq<Op>, i: nat)
    requires Valid(h) && (forall k :: 0 <= k < |ops| ==> Sized(h.word, ops[k]))
    requires i < |h.tbl| && h.tbl[i].used && h.tbl[i].live && Undisturbed(h, ops, i)
    ensures Kept(h, Run(h, ops), i)
    decreases |ops|
  {
    hide Valid, Concerns, Step;
    if |ops| == 0 {
      KeptRefl(h, i);
    } else {
      var h' := Step(h, ops[0]);
      StepValid(h, ops[0]);
      StepSame(h, ops[0]);
      StepKeeps(h, ops[0], i);
      RunKeeps(h', ops[1..], i);
    }
  }

  /** In a program that asks for no wrapped sizes, live blocks are never empty, so a pointer
    * names the block it was returned for. */
  lemma PointerNames(h: Heap, i: nat)
    requires Valid(h) && i < UsedCount(h.tbl) && h.tbl[i].live
    requires forall j :: 0 <= j < i && h.tbl[j].live ==> h.tbl[j].size > 0
    ensures Lookup(h.tbl, h.tbl[i].base) == i
  {
    var k := Lookup(h.tbl, h.tbl[i].base);
    if k < i {
      BlocksDisjoint(h, k, i);
    }
  }

  /** No block is empty. */
  ghost predicate Nonempty(h: Heap) {
    forall i :: 0 <= i < UsedCount(h.tbl) ==> h.tbl[i].size > 0
  }

  lemma StepNonempty(h: Heap, op: Op)
    requires Valid(h) && Sized(h.word, op) && Nonempty(h)
    requires (op.Allocate? || op.Resize?) ==> op.size + h.gran <= h.word
    ensures Nonempty(Step(h, op))
  {
    match op {
      case Allocate(size) => MallocNonempty(h, size);
      case Release(ptr) => FreeNonempty(h, ptr);
      case Resize(ptr, size) =>
        ValidFacts(h);
        FreeNonempty(h, ptr);
        MallocNonempty(h, size);
        FreeNonempty(Malloc(h, size).0, ptr);
      case Store(_, _) =>
    }
  }

  lemma MallocNonempty(h: Heap, size: nat)
    requires Valid(h) && size + h.gran <= h.word && Nonempty(h)
    ensures Nonempty(Malloc(h, size).0)
  {
    hide Aligned, AlignUp, Extent, FirstFit, UsedCount;
    MallocValid(h, size);
    var need := AlignUp(h.word, size, h.gran);
    var i := FirstFit(h.tbl, need);
    if size > 0 && i < |h.tbl| {
      if h.tbl[i].used { MarkValid(h, i, true); }
      else if need <= h.left { UsedCountIs(h.tbl[i := Entry(true, true, h.next, need)], i + 1); }
    }
  }

  lemma FreeNonempty(h: Heap, ptr: nat)
    requires Nonempty(h)
    ensures Nonempty(Free(h, ptr))
  {
    var i := Lookup(h.tbl, ptr);
    if i < |h.tbl| {
      var n := UsedCount(h.tbl);
      UsedCountIs(h.tbl[i := h.tbl[i].(live := false)], n);
    }
  }

  /** In a program that asks for no sizes that wrap, no block is ever empty. */
  lemma {:induction false} RunNonempty(h: Heap, ops: seq<Op>)
    requires Valid(h) && Nonempty(h)
    requires forall k :: 0 <= k < |ops| ==> Sized(h.word, ops[k])
    requires forall k :: 0 <= k < |ops| && (ops[k].Allocate? || ops[k].Resize?) ==> ops[k].size + h.gran <= h.word
    ensures Nonempty(Run(h, ops))
    decreases |ops|
  {
    hide Valid, Step, Nonempty;
    if |ops| > 0 {
      StepValid(h, ops[0]);
      StepSame(h, ops[0]);
      StepNonempty(h, ops[0]);
      assert forall k :: 0 <= k < |ops[1..]| ==> ops[1..][k] == ops[k + 1];
      RunNonempty(Step(h, ops[0]), ops[1..]);
    }
  }
}
