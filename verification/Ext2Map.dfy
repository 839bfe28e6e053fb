/** The block map of an ext2 inode: direct blocks and three levels of indirection, with holes at
  * any level.
  */
module Ext2Map {

  const NDIR_BLOCKS: nat := 12

  /** One call of an iteration's callback: the logical block number, or minus the level of an
    * indirect block, and the block. */
  datatype Call = Call(count: int, blk: nat)

  /** What an iteration depends on: `limit` block numbers fit into a block; blocks from `first`
    * up to `blocks` exist; `read` gives the block numbers in an indirect block; the flags say
    * whether indirect blocks are reported, and whether after or before what is below them. */
  datatype Fs = Fs(limit: nat, first: nat, blocks: nat, read: nat -> seq<nat>, dataOnly: bool, depthTraverse: bool)

  ghost predicate WellFormed(fs: Fs) {
    fs.limit > 0 && forall b: nat :: |fs.read(b)| == fs.limit
  }

  /** The number of data blocks under one pointer of a level. */
  function Span(limit: nat, level: nat): nat {
    if level == 0 then 1 else limit * Span(limit, level - 1)
  }

  /** Reports about an indirect block itself. */
  function ReportBefore(fs: Fs, level: nat, b: nat): seq<Call> {
    if fs.dataOnly || fs.depthTraverse then [] else [Call(0 - level, b)]
  }

  function ReportAfter(fs: Fs, level: nat, b: nat): seq<Call> {
    if !fs.dataOnly && fs.depthTraverse then [Call(0 - level, b)] else []
  }

  /** The calls for pointer `b` of a level: 0 for data, up to 3 for triple indirection.  Its data
    * starts at logical block `base`. */
  function CallsAt(fs: Fs, level: nat, b: nat, base: nat): seq<Call>
    decreases level, 0, 0
  {
    if b == 0 then []
    else if level == 0 then [Call(base, b)]
    else ReportBefore(fs, level, b) + CallsFrom(fs, level, fs.read(b), 0, base) + ReportAfter(fs, level, b)
  }

  /** The calls for the pointers in an indirect block, from number `i` on. */
  function CallsFrom(fs: Fs, level: nat, ptrs: seq<nat>, i: nat, base: nat): seq<Call>
    requires level > 0
    decreases level - 1, 1, |ptrs| - i
  {
    if i >= |ptrs| then []
    else CallsAt(fs, level - 1, ptrs[i], base) + CallsFrom(fs, level, ptrs, i + 1, base + Span(fs.limit, level - 1))
  }

  /** When the callback asks for it, an indirect block of level 1 to 3 is reported to it once with minus the level:
    * before what is below it, or after that. */
  lemma Reported(fs: Fs, level: nat, b: nat, base: nat)
    requires b != 0 && level > 0
    ensures var (calls, below) := (CallsAt(fs, level, b, base), CallsFrom(fs, level, fs.read(b), 0, base));
            calls == if fs.dataOnly then below
                     else if fs.depthTraverse then below + [Call(0 - level, b)] else [Call(0 - level, b)] + below
  {
    hide CallsFrom;
    var below := CallsFrom(fs, level, fs.read(b), 0, base);
    assert [] + below + [] == below && [Call(0 - level, b)] + below + [] == [Call(0 - level, b)] + below
           && [] + below + [Call(0 - level, b)] == below + [Call(0 - level, b)];
  }

  /** Otherwise it gets data blocks only. */
  lemma {:induction false} DataOnly(fs: Fs, level: nat, b: nat, base: nat)
    requires fs.dataOnly
    ensures forall c :: c in CallsAt(fs, level, b, base) ==> c.count >= 0
    decreases level, 0, 0
  {
    if b != 0 && level > 0 { DataOnlyFrom(fs, level, fs.read(b), 0, base); }
  }

  lemma {:induction false} DataOnlyFrom(fs: Fs, level: nat, ptrs: seq<nat>, i: nat, base: nat)
    requires fs.dataOnly && level > 0
    ensures forall c :: c in CallsFrom(fs, level, ptrs, i, base) ==> c.count >= 0
    decreases level - 1, 1, |ptrs| - i
  {
    if i < |ptrs| {
      DataOnly(fs, level - 1, ptrs[i], base);
      DataOnlyFrom(fs, level, ptrs, i + 1, base + Span(fs.limit, level - 1));
    }
  }

  /** All indirect blocks below a pointer exist. */
  ghost predicate InRange(fs: Fs, level: nat, b: nat)
    decreases level
  {
    b == 0 || level == 0 ||
    (fs.first <= b < fs.blocks && forall i :: 0 <= i < |fs.read(b)| ==> InRange(fs, level - 1, fs.read(b)[i]))
  }

  /** The calls for an inode's 15 pointers. */
  function InodeCalls(fs: Fs, ptrs: seq<nat>): seq<Call>
    requires |ptrs| == NDIR_BLOCKS + 3
  {
    var n := NDIR_BLOCKS;
    CallsFrom(fs, 1, ptrs[..n], 0, 0)
    + CallsAt(fs, 1, ptrs[n], n)
    + CallsAt(fs, 2, ptrs[n + 1], n + Span(fs.limit, 1))
    + CallsAt(fs, 3, ptrs[n + 2], n + Span(fs.limit, 1) + Span(fs.limit, 2))
  }

  ghost predicate InodeInRange(fs: Fs, ptrs: seq<nat>)
    requires |ptrs| == NDIR_BLOCKS + 3
  {
    InRange(fs, 1, ptrs[NDIR_BLOCKS]) && InRange(fs, 2, ptrs[NDIR_BLOCKS + 1]) && InRange(fs, 3, ptrs[NDIR_BLOCKS + 2])
  }

  // ----- The block map

  /** The physical block of logical block `j` under a pointer, 0 for a hole. */
  function MapAt(fs: Fs, level: nat, b: nat, j: nat): nat
    decreases level, 0, 0
  {
    if b == 0 then 0
    else if level == 0 then (if j == 0 then b else 0)
    else MapFrom(fs, level, fs.read(b), 0, j)
  }

  function MapFrom(fs: Fs, level: nat, ptrs: seq<nat>, i: nat, j: nat): nat
    requires level > 0
    decreases level - 1, 1, |ptrs| - i
  {
    var span := Span(fs.limit, level - 1);
    if i >= |ptrs| then 0
    else if j < span then MapAt(fs, level - 1, ptrs[i], j)
    else MapFrom(fs, level, ptrs, i + 1, j - span)
  }

  /** The physical block of an inode's logical block `j`. */
  function MapBlock(fs: Fs, ptrs: seq<nat>, j: nat): nat
    requires |ptrs| == NDIR_BLOCKS + 3
  {
    var n, s1, s2 := NDIR_BLOCKS, Span(fs.limit, 1), Span(fs.limit, 2);
    if j < n then ptrs[j]
    else if j < n + s1 then MapAt(fs, 1, ptrs[n], j - n)
    else if j < n + s1 + s2 then MapAt(fs, 2, ptrs[n + 1], j - n - s1)
    else MapAt(fs, 3, ptrs[n + 2], j - n - s1 - s2)
  }

  // ----- Calls list the map

  /** The calls with a non-negative count are exactly the mapped blocks from `lo` up to `hi`, in
    * increasing order. */
  ghost predicate Lists(calls: seq<Call>, m: nat -> nat, lo: nat, hi: nat) {
    && (forall k :: 0 <= k < |calls| && calls[k].count >= 0 ==>
          lo <= calls[k].count < hi && calls[k].blk == m(calls[k].count) != 0)
    && (forall k, l :: 0 <= k < l < |calls| && calls[k].count >= 0 && calls[l].count >= 0 ==> calls[k].count < calls[l].count)
    && (forall j: nat :: lo <= j < hi && m(j) != 0 ==> Call(j, m(j)) in calls)
  }

  lemma ListsConcat(a: seq<Call>, b: seq<Call>, m: nat -> nat, lo: nat, mid: nat, hi: nat)
    requires lo <= mid <= hi && Lists(a, m, lo, mid) && Lists(b, m, mid, hi)
    ensures Lists(a + b, m, lo, hi)
  {
    var c := a + b;
    forall j: nat | lo <= j < hi && m(j) != 0 ensures Call(j, m(j)) in c {
      if j < mid { assert Call(j, m(j)) in a; } else { assert Call(j, m(j)) in b; }
    }
  }

  lemma ListsReport(c: Call, m: nat -> nat, lo: nat)
    requires c.count < 0
    ensures Lists([c], m, lo, lo) && Lists([], m, lo, lo)
  {
  }

  /** `m` agrees with pointer `b` of a level from logical block `base` on. */
  ghost predicate Maps(fs: Fs, level: nat, b: nat, base: nat, m: nat -> nat) {
    forall j: nat :: base <= j < base + Span(fs.limit, level) ==> m(j) == MapAt(fs, level, b, j - base)
  }

  lemma {:induction false} CallsAtLists(fs: Fs, level: nat, b: nat, base: nat, m: nat -> nat)
    requires WellFormed(fs) && Maps(fs, level, b, base, m)
    ensures Lists(CallsAt(fs, level, b, base), m, base, base + Span(fs.limit, level))
    decreases level, 0, 0
  {
    hide Lists, Span, CallsFrom, CallsAt, Maps, ReportBefore, ReportAfter;
    if b == 0 || level == 0 {
      LeafLists(fs, level, b, base, m);
    } else {
      CallsInner(fs, level, b, base);
      var hi := base + Span(fs.limit, level);
      var ptrs := fs.read(b);
      var before, inner, behind := ReportBefore(fs, level, b), CallsFrom(fs, level, ptrs, 0, base), ReportAfter(fs, level, b);
      MapsInner(fs, level, b, base, m);
      CallsFromLists(fs, level, ptrs, 0, base, m);
      ListsReport(Call(0 - level, b), m, base);
      ListsReport(Call(0 - level, b), m, hi);
      ListsConcat(before, inner, m, base, base, hi);
      ListsConcat(before + inner, behind, m, base, hi, hi);
    }
  }

  /** A hole, or a data block. */
  lemma CallsInner(fs: Fs, level: nat, b: nat, base: nat)
    requires b != 0 && level > 0
    ensures CallsAt(fs, level, b, base) == ReportBefore(fs, level, b) + CallsFrom(fs, level, fs.read(b), 0, base) + ReportAfter(fs, level, b)
    ensures ReportBefore(fs, level, b) == [] || ReportBefore(fs, level, b) == [Call(0 - level, b)]
    ensures ReportAfter(fs, level, b) == [] || ReportAfter(fs, level, b) == [Call(0 - level, b)]
  {
    hide CallsFrom;
  }

  lemma LeafLists(fs: Fs, level: nat, b: nat, base: nat, m: nat -> nat)
    requires (b == 0 || level == 0) && Maps(fs, level, b, base, m)
    ensures Lists(CallsAt(fs, level, b, base), m, base, base + Span(fs.limit, level))
  {
  }

  lemma MapsInner(fs: Fs, level: nat, b: nat, base: nat, m: nat -> nat)
    requires WellFormed(fs) && b != 0 && level > 0 && Maps(fs, level, b, base, m)
    ensures var ptrs := fs.read(b);
            && RestSpan(fs.limit, level, |ptrs|, 0) == Span(fs.limit, level)
            && forall j: nat :: base <= j < base + RestSpan(fs.limit, level, |ptrs|, 0) ==> m(j) == MapFrom(fs, level, ptrs, 0, j - base)
  {
    SpanRest(fs.limit, level, 0);
  }

  /** What the pointers from number `i` on span. */
  function RestSpan(limit: nat, level: nat, n: nat, i: nat): nat
    requires level > 0 && i <= n
    decreases n - i
  {
    if i == n then 0 else Span(limit, level - 1) + RestSpan(limit, level, n, i + 1)
  }

  lemma {:induction false} SpanRest(limit: nat, level: nat, i: nat)
    requires level > 0 && i <= limit
    ensures RestSpan(limit, level, limit, i) == (limit - i) * Span(limit, level - 1)
    decreases limit - i
  {
    if i < limit {
      SpanRest(limit, level, i + 1);
      var s := Span(limit, level - 1);
      assert (limit - i) * s == (limit - i - 1) * s + s;
    }
  }

  lemma {:induction false} CallsFromLists(fs: Fs, level: nat, ptrs: seq<nat>, i: nat, base: nat, m: nat -> nat)
    requires WellFormed(fs) && level > 0 && i <= |ptrs|
    requires forall j: nat :: base <= j < base + RestSpan(fs.limit, level, |ptrs|, i) ==> m(j) == MapFrom(fs, level, ptrs, i, j - base)
    ensures Lists(CallsFrom(fs, level, ptrs, i, base), m, base, base + RestSpan(fs.limit, level, |ptrs|, i))
    decreases level - 1, 1, |ptrs| - i
  {
    hide Lists, CallsAt, Span, MapFrom, RestSpan;
    if i == |ptrs| {
      NoneLists(fs, level, ptrs, base, m);
    } else {
      MapsSplit(fs, level, ptrs, i, base, m);
      var mid := base + Span(fs.limit, level - 1);
      var hi := base + RestSpan(fs.limit, level, |ptrs|, i);
      CallsAtLists(fs, level - 1, ptrs[i], base, m);
      CallsFromLists(fs, level, ptrs, i + 1, mid, m);
      ListsConcat(CallsAt(fs, level - 1, ptrs[i], base), CallsFrom(fs, level, ptrs, i + 1, mid), m, base, mid, hi);
    }
  }

  lemma NoneLists(fs: Fs, level: nat, ptrs: seq<nat>, base: nat, m: nat -> nat)
    requires level > 0
    ensures Lists([], m, base, base + RestSpan(fs.limit, level, |ptrs|, |ptrs|))
  {
  }

  /** What the pointers from number `i` on map, taken apart. */
  lemma MapsSplit(fs: Fs, level: nat, ptrs: seq<nat>, i: nat, base: nat, m: nat -> nat)
    requires level > 0 && i < |ptrs|
    requires forall j: nat :: base <= j < base + RestSpan(fs.limit, level, |ptrs|, i) ==> m(j) == MapFrom(fs, level, ptrs, i, j - base)
    ensures var span := Span(fs.limit, level - 1);
            && Maps(fs, level - 1, ptrs[i], base, m)
            && RestSpan(fs.limit, level, |ptrs|, i) == span + RestSpan(fs.limit, level, |ptrs|, i + 1)
            && forall j: nat :: base + span <= j < base + span + RestSpan(fs.limit, level, |ptrs|, i + 1) ==>
                 m(j) == MapFrom(fs, level, ptrs, i + 1, j - (base + span))
  {
    hide Span, MapAt;
  }

  lemma {:induction false} DirectMap(fs: Fs, ptrs: seq<nat>, i: nat, j: nat)
    requires i <= |ptrs| && j < |ptrs| - i
    ensures MapFrom(fs, 1, ptrs, i, j) == ptrs[i + j]
    ensures RestSpan(fs.limit, 1, |ptrs|, i) == |ptrs| - i
    decreases |ptrs| - i
  {
    if j > 0 { DirectMap(fs, ptrs, i + 1, j - 1); } else if i + 1 < |ptrs| { DirectMap(fs, ptrs, i + 1, 0); }
  }

  /** The number of logical blocks an inode can map. */
  function InodeSpan(limit: nat): nat {
    NDIR_BLOCKS + Span(limit, 1) + Span(limit, 2) + Span(limit, 3)
  }

  /** An inode's calls with a non-negative count are its mapped blocks, each once, in increasing
    * order and with its true logical number, whatever holes there are at any level. */
  lemma InodeCallsList(fs: Fs, ptrs: seq<nat>)
    requires WellFormed(fs) && |ptrs| == NDIR_BLOCKS + 3
    ensures Lists(InodeCalls(fs, ptrs), (j: nat) => MapBlock(fs, ptrs, j), 0, InodeSpan(fs.limit))
  {
    hide Span, MapAt, MapFrom, CallsAt, CallsFrom, Lists;
    var m := (j: nat) => MapBlock(fs, ptrs, j);
    var n := NDIR_BLOCKS;
    var s1, s2, s3 := Span(fs.limit, 1), Span(fs.limit, 2), Span(fs.limit, 3);
    var direct := ptrs[..n];
    DirectMap(fs, direct, 0, 0);
    forall j: nat | 0 <= j < 0 + n ensures m(j) == MapFrom(fs, 1, direct, 0, j - 0) { DirectMap(fs, direct, 0, j); }
    var c0, c1 := CallsFrom(fs, 1, direct, 0, 0), CallsAt(fs, 1, ptrs[n], n);
    var c2, c3 := CallsAt(fs, 2, ptrs[n + 1], n + s1), CallsAt(fs, 3, ptrs[n + 2], n + s1 + s2);
    CallsFromLists(fs, 1, direct, 0, 0, m);
    CallsAtLists(fs, 1, ptrs[n], n, m);
    CallsAtLists(fs, 2, ptrs[n + 1], n + s1, m);
    CallsAtLists(fs, 3, ptrs[n + 2], n + s1 + s2, m);
    ListsConcat(c0, c1, m, 0, n, n + s1);
    ListsConcat(c0 + c1, c2, m, 0, n + s1, n + s1 + s2);
    ListsConcat(c0 + c1 + c2, c3, m, 0, n + s1 + s2, n + s1 + s2 + s3);
  }

  // ----- Stopping early

  /** A callback that decides from the calls so far whether to abort. */
  type Callback = seq<Call> -> bool

  /** The calls made of `todo` after those in `done`: up to the first at which it aborts. */
  function Until(stop: Callback, done: seq<Call>, todo: seq<Call>): seq<Call>
    decreases |todo|
  {
    if |todo| == 0 then done
    else if stop(done + [todo[0]]) then done + [todo[0]]
    else Until(stop, done + [todo[0]], todo[1..])
  }

  /** It aborts on the way. */
  predicate Aborts(stop: Callback, done: seq<Call>, todo: seq<Call>)
    decreases |todo|
  {
    |todo| > 0 && (stop(done + [todo[0]]) || Aborts(stop, done + [todo[0]], todo[1..]))
  }

  lemma {:induction false} UntilConcat(stop: Callback, done: seq<Call>, a: seq<Call>, b: seq<Call>)
    ensures Aborts(stop, done, a + b) <==> Aborts(stop, done, a) || Aborts(stop, Until(stop, done, a), b)
    ensures Until(stop, done, a + b) ==
            if Aborts(stop, done, a) then Until(stop, done, a) else Until(stop, Until(stop, done, a), b)
    decreases |a|
  {
    if |a| == 0 {
      assert a + b == b;
    } else {
      assert (a + b)[0] == a[0] && (a + b)[1..] == a[1..] + b;
      UntilConcat(stop, done + [a[0]], a[1..], b);
    }
  }

  /** A callback that never aborts gets all calls. */
  lemma {:induction false} NeverAborts(stop: Callback, done: seq<Call>, todo: seq<Call>)
    requires forall c :: !stop(c)
    ensures !Aborts(stop, done, todo) && Until(stop, done, todo) == done + todo
    decreases |todo|
  {
    if |todo| > 0 {
      NeverAborts(stop, done + [todo[0]], todo[1..]);
      assert done + [todo[0]] + todo[1..] == done + todo;
    } else {
      assert done + todo == done;
    }
  }

  /** After the calls `c` there remains `rest` of what was to be done from `done` on. */
  ghost predicate Remains(stop: Callback, done: seq<Call>, todo: seq<Call>, c: seq<Call>, rest: seq<Call>) {
    && Until(stop, done, todo) == Until(stop, c, rest)
    && (Aborts(stop, done, todo) <==> Aborts(stop, c, rest))
  }

  /** The calls are made, `abort` says whether one aborted. */
  ghost predicate Made(stop: Callback, done: seq<Call>, todo: seq<Call>, c: seq<Call>, abort: bool) {
    c == Until(stop, done, todo) && abort == Aborts(stop, done, todo)
  }

  /** A part of the calls that remain is made. */
  lemma RemainsStep(stop: Callback, done: seq<Call>, todo: seq<Call>, c: seq<Call>, a: seq<Call>, b: seq<Call>, c': seq<Call>, abort: bool)
    requires Remains(stop, done, todo, c, a + b) && Made(stop, c, a, c', abort)
    ensures if abort then Made(stop, done, todo, c', true) else Remains(stop, done, todo, c', b)
  {
    UntilConcat(stop, c, a, b);
  }

  /** Nothing remains. */
  lemma RemainsNone(stop: Callback, done: seq<Call>, todo: seq<Call>, c: seq<Call>)
    requires Remains(stop, done, todo, c, [])
    ensures Made(stop, done, todo, c, false)
  {
  }

  lemma MadeOne(stop: Callback, done: seq<Call>, call: Call)
    ensures Made(stop, done, [call], done + [call], stop(done + [call]))
    ensures Made(stop, done, [], done, false)
  {
  }
}
