/** The steps of table construction keep its invariant: pushing a table, writing the entries
  * of one code, and moving on to the next code. */
module HuftSteps {
  import opened Bits
  import opened Canonical
  import opened HuftTables
  import opened HuftLabels

  /** The open tables, outermost first: `u` are their addresses and `x` the bits that lead to
    * them; `h` is the level of the last one (-1: none yet) and `w` the bits before it. */
  datatype Stack = Stack(h: int, w: int, u: seq<nat>, x: seq<nat>)

  ghost predicate Level(own: seq<Label>, base: nat, st: Stack, i: nat, d: nat)
    requires d < |st.u| && d < |st.x|
  {
    && base <= st.u[d] < |own|
    && own[st.u[d]].start == st.u[d]
    && own[st.u[d]].w >= d
    && own[st.u[d]].pat == st.x[d] == Low(i, own[st.u[d]].w)
  }

  ghost predicate Shape(own: seq<Label>, base: nat, tree: Tree, st: Stack, i: nat) {
    && |st.u| == MAX_BITS && |st.x| == MAX_BITS + 1
    && -1 <= st.h < MAX_BITS
    && st.x[0] == 0
    && (st.h == -1 ==> st.w + tree.l == 0 && |own| == base)
    && (forall d :: 0 <= d <= st.h ==> Level(own, base, st, i, d))
    && (st.h >= 0 ==> Level(own, base, st, i, st.h) && own[st.u[st.h]].w == st.w)
    && (st.h >= 0 ==> Level(own, base, st, i, 0) && st.u[0] == base && own[base].w == 0)
    && (forall d :: 0 <= d < st.h ==> Step(own, base, tree, st, i, d))
  }

  ghost predicate Step(own: seq<Label>, base: nat, tree: Tree, st: Stack, i: nat, d: nat)
    requires d + 1 < |st.u| && d + 1 < |st.x|
  {
    && Level(own, base, st, i, d)
    && Level(own, base, st, i, d + 1)
    && own[st.u[d + 1]].w == own[st.u[d]].w + tree.l
    && own[st.u[d]].j >= tree.l
  }

  /** The entry of level `d` through which the decoder reaches level `d + 1`. */
  function LinkSlot(own: seq<Label>, st: Stack, d: nat): nat
    requires d + 1 < |st.x| && d < |st.u| && st.u[d] < |own|
  {
    st.u[d] + Shr(st.x[d + 1], own[st.u[d]].w)
  }

  ghost predicate LinkOK(T: seq<Huft>, own: seq<Label>, tree: Tree, st: Stack, d: nat)
    requires d + 1 < |st.x| && d < |st.u| && st.u[d] < |own| <= |T| && MaxLen(tree.lens) > 0
  {
    var a := LinkSlot(own, st, d);
    a < |own| && own[a] == own[st.u[d]] && own[a].start <= a && EntryOK(T, own, tree, a)
  }

  ghost predicate Linked(T: seq<Huft>, own: seq<Label>, base: nat, tree: Tree, st: Stack, i: nat)
    requires Shape(own, base, tree, st, i) && |own| <= |T| && MaxLen(tree.lens) > 0
  {
    forall d :: 0 <= d < st.h ==> Level(own, base, st, i, d) && LinkOK(T, own, tree, st, d)
  }

  ghost predicate OnStack(st: Stack, t: nat) {
    exists d :: 0 <= d <= st.h && d < |st.u| && st.u[d] == t
  }

  /** The table lies wholly below position `P`. */
  ghost predicate Finished(tree: Tree, L: Label, P: nat) {
    L.w <= MaxLen(tree.lens) && Pos(tree.lens, L.pat) + Pow2(MaxLen(tree.lens) - L.w) <= P
  }

  /** Every table is either open or finished. */
  ghost predicate Sorted(own: seq<Label>, base: nat, tree: Tree, st: Stack, P: nat) {
    forall a :: base <= a < |own| ==> OnStack(st, own[a].start) || Finished(tree, own[a], P)
  }

  /** The invariant before the code `i` of length `k` is entered; `q` and `z` are the current
    * table and its size. */
  ghost predicate Ready(T: seq<Huft>, own: seq<Label>, base: nat, tree: Tree, st: Stack,
                        k: nat, i: nat, q: nat, z: nat)
  {
    && |own| <= |T|
    && 0 < tree.l <= MAX_BITS
    && 0 < MaxLen(tree.lens) <= MAX_BITS
    && DoneBelow(T, own, base, tree, Pos(tree.lens, i))
    && Shape(own, base, tree, st, i)
    && Linked(T, own, base, tree, st, i)
    && Sorted(own, base, tree, st, Pos(tree.lens, i))
    && k <= MaxLen(tree.lens)
    && i < Pow2(k)
    && st.w < k
    && 0 <= st.w + tree.l
    && (k > st.w + tree.l ==> i < Pow2(st.w + tree.l))
    && (k <= st.w + tree.l ==> st.h >= 0 && q == st.u[st.h] && Level(own, base, st, i, st.h)
                               && z == Pow2(own[q].j))
  }

  lemma {:induction false} WidthMono(own: seq<Label>, base: nat, tree: Tree, st: Stack, i: nat, d: nat, e: nat)
    requires Shape(own, base, tree, st, i) && tree.l > 0
    requires d <= e <= st.h
    ensures base <= st.u[d] < |own| && base <= st.u[e] < |own|
    ensures d < e ==> own[st.u[d]].w + tree.l <= own[st.u[e]].w
    ensures d == e ==> st.u[d] == st.u[e]
  {
    assert Level(own, base, st, i, d) && Level(own, base, st, i, e);
    if d < e {
      assert Step(own, base, tree, st, i, e - 1);
      WidthMono(own, base, tree, st, i, d, e - 1);
    }
  }

  /** The link slots belong to their tables and spell out the next level's prefix. */
  lemma LinkSlotAt(own: seq<Label>, base: nat, tree: Tree, st: Stack, i: nat, d: nat)
    requires Shape(own, base, tree, st, i) && Labelled(own, base, tree)
    requires 0 <= d < st.h
    ensures base <= st.u[d] < |own|
    ensures var a := LinkSlot(own, st, d);
            && a < |own| && own[a] == own[st.u[d]] && own[a].start <= a
            && PatOf(own[a], a) == st.x[d + 1]
  {
    hide Shl, Shr, Rev, Low, MaxLen, TableBits;
    var t := st.u[d];
    assert Step(own, base, tree, st, i, d);
    assert LabelOK(own, base, tree, t);
    var w := own[t].w;
    var y := st.x[d + 1];
    LowBound(i, w + tree.l);
    LowSplit(i, w, tree.l);
    LowBound(Shr(i, w), tree.l);
    Pow2Mono(tree.l, own[t].j);
    Split(y, w);
    LowLow(i, w, w + tree.l);
    assert own[LinkSlot(own, st, d)] == own[t];
  }

  // ----- Pushing a table

  /** The table for a prefix holds all its codes of at most `w + l` bits. */
  lemma TableCovers(tree: Tree, i: nat, w: nat)
    requires w < MaxLen(tree.lens)
    ensures var k, j := LenAt(tree.lens, Pos(tree.lens, i)), TableBits(tree, w, Low(i, w));
            (k <= w + tree.l ==> k <= w + j) && (k > w + tree.l ==> j >= tree.l)
            && (k > w && tree.l > 0 ==> j > 0) && (k <= w + tree.l ==> j <= tree.l)
  {
    hide Shl, Shr, Rev, Low, MaxLen, LenAt;
    var g := MaxLen(tree.lens);
    PrefixPos(tree.lens, i, w);
    LenAtMono(tree.lens, Rev(g, Low(i, w)), Pos(tree.lens, i));
    LenAtMono(tree.lens, Pos(tree.lens, i), Rev(g, Low(i, w)) + Pow2(g - w) - 1);
  }

  /** The new table's labels, appended. */
  function NewTable(q: nat, j: nat, w: nat, i: nat): (s: seq<Label>)
    ensures |s| == Pow2(j)
    ensures forall d :: 0 <= d < |s| ==> s[d] == Label(q, j, w, i)
  {
    seq(Pow2(j), _ => Label(q, j, w, i))
  }

  lemma PushLabels(own: seq<Label>, base: nat, tree: Tree, j: nat, w: nat, i: nat)
    requires Labelled(own, base, tree) && base <= |own|
    requires w < MaxLen(tree.lens) && IsLevel(tree.l, w) && i < Pow2(w) && j == TableBits(tree, w, i)
    ensures Labelled(own + NewTable(|own|, j, w, i), base, tree)
  {
    hide Shl, Shr, Rev, Low, MaxLen, LenAt, TableBits;
    var q := |own|;
    var own' := own + NewTable(q, j, w, i);
    forall a | base <= a < |own'|
      ensures LabelOK(own', base, tree, a)
    {
      if a < q {
        assert LabelOK(own, base, tree, a);
        var L := own[a];
        forall d | L.start <= d < L.start + Pow2(L.j) ensures own'[d] == L {
          assert own[d] == L;
        }
      }
    }
  }

  /** An entry that was right stays right when tables are appended and it is not overwritten. */
  lemma EntryFrame(T: seq<Huft>, T': seq<Huft>, own: seq<Label>, own': seq<Label>, tree: Tree, a: nat)
    requires MaxLen(tree.lens) > 0
    requires a < |own| <= |own'| <= |T'| && |own| <= |T| && own[a].start <= a
    requires forall d :: 0 <= d < |own| ==> own'[d] == own[d]
    requires T'[a] == T[a]
    requires EntryOK(T, own, tree, a)
    ensures EntryOK(T', own', tree, a)
  {
    hide MaxLen, LenAt, LeafOK, Shl;
  }

  /** What a push leaves in the table space: the link in the innermost open table. */
  ghost predicate LinkWritten(T: seq<Huft>, T': seq<Huft>, own: seq<Label>, st: Stack, l: nat, i: nat, j: nat)
  {
    && |T'| == |T|
    && (st.h < 0 ==> T' == T)
    && (st.h >= 0 && st.h < |st.u| && st.w >= 0 ==>
          var pa := st.u[st.h] + Shr(i, st.w);
          && pa < |own| <= |T|
          && T' == T[pa := Huft(j, l, |own| - pa)])
  }

  function Pushed(st: Stack, l: nat, q: nat, i: nat): Stack
    requires -1 <= st.h && st.h + 1 < |st.u| && st.h + 1 < |st.x|
  {
    Stack(st.h + 1, st.w + l, st.u[st.h + 1 := q], st.x[st.h + 1 := i])
  }

  /** The slot in which the new table is hung. */
  lemma PushSlot(own: seq<Label>, base: nat, tree: Tree, st: Stack, k: nat, i: nat)
    requires Shape(own, base, tree, st, i) && Labelled(own, base, tree)
    requires 0 < tree.l && MaxLen(tree.lens) <= MAX_BITS
    requires st.h >= 0
    requires k > st.w + tree.l && i < Pow2(st.w + tree.l)
    requires LenAt(tree.lens, Pos(tree.lens, i)) == k
    ensures 0 <= st.w && base <= st.u[st.h] < |own|
    ensures st.w + tree.l < MaxLen(tree.lens) && st.h + 1 < MAX_BITS
    ensures var t := st.u[st.h];
            var pa := t + Shr(i, st.w);
            && own[t].j >= tree.l && own[t].start == t && own[t].w == st.w
            && pa < |own| && own[pa] == own[t]
            && PatOf(own[t], pa) == i
  {
    hide Shl, Shr, Rev, Low, MaxLen, LenAt, TableBits;
    var t, w := st.u[st.h], st.w;
    assert LabelOK(own, base, tree, t);
    TableCovers(tree, i, w);
    LowSmall(i, w + tree.l);
    LowSplit(i, w, tree.l);
    LowBound(Shr(i, w), tree.l);
    Pow2Mono(tree.l, own[t].j);
    assert own[t + Shr(i, w)] == own[t];
  }

  /** The conditions under which a table is pushed, and what the push does. */
  ghost predicate Push(T: seq<Huft>, T': seq<Huft>, own: seq<Label>, own': seq<Label>, tree: Tree,
                       st: Stack, st': Stack, k: nat, i: nat, j: nat)
  {
    var W := st.w + tree.l;
    && 0 <= W < k <= MaxLen(tree.lens)
    && i < Pow2(W)
    && LenAt(tree.lens, Pos(tree.lens, i)) == k
    && j == TableBits(tree, W, i)
    && -1 <= st.h && st.h + 1 < |st.u| && st.h + 1 < |st.x|
    && own' == own + NewTable(|own|, j, W, i)
    && st' == Pushed(st, tree.l, |own|, i)
    && |own'| <= |T| == |T'|
    && LinkWritten(T, T', own, st, tree.l, i, j)
  }

  lemma PushDone(T: seq<Huft>, T': seq<Huft>, own: seq<Label>, own': seq<Label>, base: nat, tree: Tree,
                 st: Stack, st': Stack, k: nat, i: nat, q: nat, z: nat, j: nat)
    requires Ready(T, own, base, tree, st, k, i, q, z)
    requires Push(T, T', own, own', tree, st, st', k, i, j)
    requires base <= |own|
    ensures DoneBelow(T', own', base, tree, Pos(tree.lens, i))
  {
    hide Shl, Shr, Rev, Low, MaxLen, LenAt, TableBits, EntryOK, SlotPos, Sorted, Linked;
    var P := Pos(tree.lens, i);
    if st.h >= 0 { assert LabelOK(own, base, tree, st.u[st.h]); }
    PushLabels(own, base, tree, j, st.w + tree.l, i);
    if st.h >= 0 {
      PushSlot(own, base, tree, st, k, i);
      var pa := st.u[st.h] + Shr(i, st.w);
      PosOfSlot(tree, own[pa], pa, i);
    }
    forall a | base <= a < |own'| && own'[a].start <= a && SlotPos(tree, own'[a], a) < P
      ensures EntryOK(T', own', tree, a)
    {
      if a < |own| {
        assert own'[a] == own[a];
        assert EntryOK(T, own, tree, a);
        assert T'[a] == T[a];
        EntryFrame(T, T', own, own', tree, a);
      } else {
        SlotInTable(tree, own'[a], a);
      }
    }
  }

  lemma PosOfSlot(tree: Tree, L: Label, a: nat, i: nat)
    requires L.start <= a && PatOf(L, a) == i
    ensures SlotPos(tree, L, a) == Pos(tree.lens, i)
  {
  }

  lemma PushShape(own: seq<Label>, own': seq<Label>, base: nat, tree: Tree, st: Stack, st': Stack,
                  T: seq<Huft>, T': seq<Huft>, k: nat, i: nat, q: nat, z: nat, j: nat)
    requires Ready(T, own, base, tree, st, k, i, q, z)
    requires Push(T, T', own, own', tree, st, st', k, i, j)
    requires base <= |own|
    ensures Shape(own', base, tree, st', i)
  {
    hide Shl, Shr, Rev, Low, MaxLen, LenAt, TableBits, EntryOK, SlotPos, Sorted, Linked;
    assert Labelled(own, base, tree);
    if st.h >= 0 { PushSlot(own, base, tree, st, k, i); }
    LowSmall(i, st.w + tree.l);
    if st.h == -1 { assert i == 0 by { Pow2Zero(); } }
    assert Low(i, own'[|own|].w) == i;
    forall d | 0 <= d <= st'.h
      ensures Level(own', base, st', i, d)
    {
      if d <= st.h { assert Level(own, base, st, i, d); }
    }
    forall d | 0 <= d < st'.h
      ensures Step(own', base, tree, st', i, d)
    {
      assert Level(own', base, st', i, d) && Level(own', base, st', i, d + 1);
      if d < st.h { assert Step(own, base, tree, st, i, d); }
    }
  }

  lemma Pow2Zero()
    ensures Pow2(0) == 1
  {
  }

  lemma PushLinked(own: seq<Label>, own': seq<Label>, base: nat, tree: Tree, st: Stack, st': Stack,
                   T: seq<Huft>, T': seq<Huft>, k: nat, i: nat, q: nat, z: nat, j: nat)
    requires Ready(T, own, base, tree, st, k, i, q, z)
    requires Push(T, T', own, own', tree, st, st', k, i, j)
    requires base <= |own|
    requires Shape(own', base, tree, st', i)
    ensures Linked(T', own', base, tree, st', i)
  {
    hide Shl, Shr, Rev, Low, MaxLen, LenAt, TableBits, EntryOK, SlotPos, Sorted, LeafOK, PatOf;
    assert Labelled(own, base, tree);
    if st.h >= 0 {
      PushSlot(own, base, tree, st, k, i);
      var t := st.u[st.h];
      var pa := t + Shr(i, st.w);
      forall d | 0 <= d < st'.h
        ensures Level(own', base, st', i, d) && LinkOK(T', own', tree, st', d)
      {
        assert Step(own', base, tree, st', i, d);
        if d < st.h {
          assert Step(own, base, tree, st, i, d);
          var a := LinkSlot(own, st, d);
          LinkSlotAt(own, base, tree, st, i, d);
          WidthMono(own, base, tree, st, i, d, st.h);
          assert Level(own, base, st, i, d) && LinkOK(T, own, tree, st, d);
          assert own[a] != own[pa];
          EntryFrame(T, T', own, own', tree, a);
        } else {
          assert LinkSlot(own', st', d) == pa;
          NewLink(T', own', tree, pa, |own|, i, k, j);
        }
      }
    }
  }

  /** The link just written is right. */
  lemma NewLink(T: seq<Huft>, own: seq<Label>, tree: Tree, pa: nat, q: nat, i: nat, k: nat, j: nat)
    requires pa < q < |own| <= |T| && own[pa].start <= pa && MaxLen(tree.lens) > 0
    requires 0 < tree.l <= MAX_BITS && MaxLen(tree.lens) <= MAX_BITS && own[pa].j >= tree.l
    requires PatOf(own[pa], pa) == i && LenAt(tree.lens, Pos(tree.lens, i)) == k
    requires own[pa].w + tree.l < k <= MaxLen(tree.lens)
    requires i < Pow2(own[pa].w + tree.l)
    requires j == TableBits(tree, own[pa].w + tree.l, i)
    requires own[q] == Label(q, j, own[pa].w + tree.l, i)
    requires T[pa] == Huft(j, tree.l, q - pa)
    ensures EntryOK(T, own, tree, pa)
  {
    hide Shl, Shr, Rev, Low, MaxLen, LenAt, TableBits, LeafOK;
    TableCovers(tree, i, own[pa].w + tree.l);
    LowSmall(i, own[pa].w + tree.l);
  }

  lemma PushSorted(own: seq<Label>, own': seq<Label>, base: nat, tree: Tree, st: Stack, st': Stack,
                   T: seq<Huft>, T': seq<Huft>, k: nat, i: nat, q: nat, z: nat, j: nat)
    requires Ready(T, own, base, tree, st, k, i, q, z)
    requires Push(T, T', own, own', tree, st, st', k, i, j)
    requires base <= |own|
    ensures Sorted(own', base, tree, st', Pos(tree.lens, i))
  {
    hide Shl, Shr, Rev, Low, MaxLen, LenAt, TableBits, EntryOK, SlotPos, Linked, DoneBelow, Finished, Shape;
    forall a | base <= a < |own'|
      ensures OnStack(st', own'[a].start) || Finished(tree, own'[a], Pos(tree.lens, i))
    {
      if a < |own| {
        assert own'[a] == own[a];
        if OnStack(st, own[a].start) {
          var d :| 0 <= d <= st.h && d < |st.u| && st.u[d] == own[a].start;
          assert st'.u[d] == st.u[d];
        }
      } else {
        assert st'.u[st'.h] == own'[a].start;
      }
    }
  }

  /** Pushing a table keeps the invariant. */
  lemma PushReady(T: seq<Huft>, T': seq<Huft>, own: seq<Label>, own': seq<Label>, base: nat, tree: Tree,
                  st: Stack, st': Stack, k: nat, i: nat, q: nat, z: nat, j: nat)
    requires Ready(T, own, base, tree, st, k, i, q, z)
    requires Push(T, T', own, own', tree, st, st', k, i, j)
    requires base <= |own|
    ensures Ready(T', own', base, tree, st', k, i, |own|, Pow2(j))
  {
    hide Shl, Shr, Rev, Low, MaxLen, LenAt, TableBits, EntryOK, SlotPos, Linked, DoneBelow, Sorted, Level, Step;
    PushDone(T, T', own, own', base, tree, st, st', k, i, q, z, j);
    PushShape(own, own', base, tree, st, st', T, T', k, i, q, z, j);
    PushLinked(own, own', base, tree, st, st', T, T', k, i, q, z, j);
    PushSorted(own, own', base, tree, st, st', T, T', k, i, q, z, j);
    Pow2Mono(st.w + tree.l, st.w + 2 * tree.l);
  }

  // ----- Entering one code

  /** The entry `r` was copied to every slot of the table at `q` whose index ends in the `n`
    * bits `c`. */
  ghost predicate Written(T: seq<Huft>, T': seq<Huft>, q: nat, z: nat, n: nat, c: nat, r: Huft) {
    && |T'| == |T|
    && forall a :: 0 <= a < |T| ==>
         T'[a] == if q <= a < q + z && Low(a - q, n) == c then r else T[a]
  }

  /** The slots of the current table that start with the code are those written. */
  lemma SlotOfCode(L: Label, a: nat, i: nat, k: nat)
    requires L.start <= a && L.w < k
    requires L.pat == Low(i, L.w) && i < Pow2(k)
    ensures Low(PatOf(L, a), k) == i <==> Low(a - L.start, k - L.w) == Shr(i, L.w)
  {
    hide Shl, Shr, Low;
    var p := PatOf(L, a);
    LowBound(i, L.w);
    Unsplit(L.pat, a - L.start, L.w);
    LowSplit(p, L.w, k - L.w);
    Split(i, L.w);
    LowBound(p, k);
    if Low(a - L.start, k - L.w) == Shr(i, L.w) {
      assert Low(p, k) == i;
    }
    if Low(p, k) == i {
      assert Shr(i, L.w) == Low(Shr(p, L.w), k - L.w);
    }
  }

  lemma WrittenEntry(T: seq<Huft>, own: seq<Label>, base: nat, tree: Tree, q: nat, a: nat, k: nat, i: nat, r: Huft)
    requires Labelled(own, base, tree) && |own| <= |T|
    requires base <= q < |own| && own[q].start == q && q <= a < q + Pow2(own[q].j)
    requires own[q].w < k <= own[q].w + tree.l && k <= MaxLen(tree.lens) && i < Pow2(k)
    requires own[q].pat == Low(i, own[q].w)
    requires LenAt(tree.lens, Pos(tree.lens, i)) == k
    requires LeafOK(r, tree, own[q].w, Pos(tree.lens, i))
    requires Low(PatOf(own[q], a), k) == i
    requires a < |T| && T[a] == r
    ensures a < |own| && own[a] == own[q] && EntryOK(T, own, tree, a)
  {
    hide Shl, Shr, Rev, Low, MaxLen, LenAt, TableBits, SymbolAt, Pos;
    assert LabelOK(own, base, tree, q);
    assert own[a] == own[q];
    PrefixPos(tree.lens, PatOf(own[q], a), k);
    SameCode(tree.lens, Pos(tree.lens, i), Pos(tree.lens, PatOf(own[q], a)), k);
    TableCovers(tree, i, own[q].w);
  }

  /** The first slot of a table spells out the table's own prefix. */
  lemma FirstSlot(L: Label, k: nat, i: nat, n: nat)
    requires L.w <= k && L.w <= n && L.pat < Pow2(L.w) && Low(PatOf(L, L.start), k) == i
    ensures i == L.pat && Shr(Low(i, n), L.w) == 0
  {
    hide Shl, Shr, Low;
    ShlZero(L.w);
    Pow2Mono(L.w, k);
    LowSmall(L.pat, k);
    Pow2Mono(L.w, n);
    LowSmall(L.pat, n);
    ShrQuotient(L.pat, L.w, 0);
  }

  /** A table with an entry that is not done yet, other than the current one, is open below it. */
  lemma OpenBelow(T: seq<Huft>, own: seq<Label>, base: nat, tree: Tree, st: Stack,
                  k: nat, i: nat, q: nat, z: nat, a: nat) returns (d: nat)
    requires Ready(T, own, base, tree, st, k, i, q, z) && k <= st.w + tree.l
    requires base <= a < |own| && own[a].start <= a
    requires SlotPos(tree, own[a], a) >= Pos(tree.lens, i)
    requires own[a] != own[q]
    ensures d < st.h && st.u[d] == own[a].start < |own| && own[own[a].start] == own[a]
    ensures LabelOK(own, base, tree, a)
  {
    hide Shl, Low, MaxLen, TableBits, EntryOK, Pos, Step, Linked;
    assert LabelOK(own, base, tree, a);
    var L := own[a];
    assert own[L.start] == L;
    SlotInTable(tree, L, a);
    assert OnStack(st, L.start);
    d :| 0 <= d <= st.h && d < |st.u| && st.u[d] == L.start;
  }

  /** An entry whose slot lies in the code being entered, but was not written, is one of the
    * links leading to the current table. */
  lemma {:induction false} OtherEntry(T: seq<Huft>, own: seq<Label>, base: nat, tree: Tree, st: Stack,
                   k: nat, i: nat, q: nat, z: nat, a: nat)
    requires Ready(T, own, base, tree, st, k, i, q, z) && k <= st.w + tree.l
    requires base <= a < |own| && own[a].start <= a
    requires Low(PatOf(own[a], a), k) == i
    requires SlotPos(tree, own[a], a) >= Pos(tree.lens, i)
    requires own[a] != own[q]
    ensures EntryOK(T, own, tree, a)
  {
    hide Shl, Shr, Rev, Low, MaxLen, LenAt, TableBits, LeafOK, Pos, Sorted;
    var L := own[a];
    var d := OpenBelow(T, own, base, tree, st, k, i, q, z, a);
    assert Step(own, base, tree, st, i, d);
    WidthMono(own, base, tree, st, i, d + 1, st.h);
    PatBound(L, a);
    if L.j > tree.l {
      if a == L.start { FirstSlot(L, k, i, own[st.u[d + 1]].w); }
      assert LinkOK(T, own, tree, st, d);
      return;
    }
    Pow2Mono(L.w + L.j, k);
    LowSmall(PatOf(L, a), k);
    LowSmall(i, L.w + tree.l);
    assert st.x[d + 1] == i;
    assert a == LinkSlot(own, st, d);
    assert LinkOK(T, own, tree, st, d);
  }

  lemma WriteDone(T: seq<Huft>, T': seq<Huft>, own: seq<Label>, base: nat, tree: Tree, st: Stack,
                  k: nat, i: nat, q: nat, z: nat, r: Huft)
    requires Ready(T, own, base, tree, st, k, i, q, z) && k <= st.w + tree.l && 0 <= st.w
    requires LenAt(tree.lens, Pos(tree.lens, i)) == k
    requires LeafOK(r, tree, st.w, Pos(tree.lens, i))
    requires Written(T, T', q, z, k - st.w, Shr(i, st.w), r)
    ensures DoneBelow(T', own, base, tree, Pos(tree.lens, i) + Pow2(MaxLen(tree.lens) - k))
  {
    hide Shl, Shr, Rev, Low, MaxLen, LenAt, TableBits, EntryOK, Pos, LeafOK, Sorted, Linked, PatOf, Shape, LabelOK, Labelled;
    var P := Pos(tree.lens, i);
    forall a | base <= a < |own| && own[a].start <= a
               && SlotPos(tree, own[a], a) < P + Pow2(MaxLen(tree.lens) - k)
      ensures EntryOK(T', own, tree, a)
    {
      WriteEntry(T, T', own, base, tree, st, k, i, q, z, r, a);
    }
  }

  lemma TopTable(T: seq<Huft>, own: seq<Label>, base: nat, tree: Tree, st: Stack, k: nat, i: nat, q: nat, z: nat)
    requires Ready(T, own, base, tree, st, k, i, q, z) && k <= st.w + tree.l && 0 <= st.w
    ensures |own| <= |T| && Labelled(own, base, tree) && DoneBelow(T, own, base, tree, Pos(tree.lens, i))
    ensures base <= q < |own| && own[q].start == q && own[q].w == st.w && own[q].pat == Low(i, st.w) && z == Pow2(own[q].j)
    ensures st.w < k <= MaxLen(tree.lens) && i < Pow2(k)
  {
    hide Shl, Low, MaxLen, EntryOK, Labelled, Pos;
    assert Level(own, base, st, i, st.h);
  }

  lemma WriteEntry(T: seq<Huft>, T': seq<Huft>, own: seq<Label>, base: nat, tree: Tree, st: Stack,
                   k: nat, i: nat, q: nat, z: nat, r: Huft, a: nat)
    requires Ready(T, own, base, tree, st, k, i, q, z) && k <= st.w + tree.l && 0 <= st.w
    requires LenAt(tree.lens, Pos(tree.lens, i)) == k
    requires LeafOK(r, tree, st.w, Pos(tree.lens, i))
    requires Written(T, T', q, z, k - st.w, Shr(i, st.w), r)
    requires base <= a < |own| && own[a].start <= a
    requires SlotPos(tree, own[a], a) < Pos(tree.lens, i) + Pow2(MaxLen(tree.lens) - k)
    ensures EntryOK(T', own, tree, a)
  {
    hide Shl, Shr, Rev, Low, MaxLen, LenAt, TableBits, EntryOK, Pos, LeafOK, Ready, PatOf;
    TopTable(T, own, base, tree, st, k, i, q, z);
    assert LabelOK(own, base, tree, q);
    assert LabelOK(own, base, tree, a);
    assert own[own[a].start] == own[a];
    InCode(tree.lens, PatOf(own[a], a), i, k);
    if own[a] == own[q] {
      SlotOfCode(own[q], a, i, k);
    }
    if own[a] == own[q] && Low(PatOf(own[a], a), k) == i {
      WrittenEntry(T', own, base, tree, q, a, k, i, r);
    } else {
      if SlotPos(tree, own[a], a) >= Pos(tree.lens, i) {
        OtherEntry(T, own, base, tree, st, k, i, q, z, a);
      }
      assert T'[a] == T[a];
      EntryFrame(T, T', own, own, tree, a);
    }
  }

  /** The entries of a code are not among those of a table that is too deep. */
  lemma WriteUntouched(T0: seq<Huft>, T: seq<Huft>, T': seq<Huft>, own: seq<Label>, base: nat, tree: Tree, st: Stack,
                       k: nat, i: nat, q: nat, z: nat, r: Huft)
    requires Untouched(T0, T, own, base, tree)
    requires Ready(T, own, base, tree, st, k, i, q, z) && k <= st.w + tree.l && 0 <= st.w
    requires LenAt(tree.lens, Pos(tree.lens, i)) == k
    requires Written(T, T', q, z, k - st.w, Shr(i, st.w), r)
    ensures Untouched(T0, T', own, base, tree)
  {
    hide Shl, Shr, Rev, Low, MaxLen, LenAt, TableBits, EntryOK, Pos, LeafOK, Ready, PatOf;
    TopTable(T, own, base, tree, st, k, i, q, z);
    assert LabelOK(own, base, tree, q);
    TableCovers(tree, i, st.w);
    assert forall a :: q <= a < q + z ==> own[a] == own[q];
  }

  /** Nor is the link to a new table. */
  lemma PushUntouched(T0: seq<Huft>, T: seq<Huft>, T': seq<Huft>, own: seq<Label>, own': seq<Label>, base: nat, tree: Tree,
                      st: Stack, st': Stack, k: nat, i: nat, q: nat, z: nat, j: nat)
    requires Untouched(T0, T, own, base, tree)
    requires Ready(T, own, base, tree, st, k, i, q, z)
    requires Push(T, T', own, own', tree, st, st', k, i, j)
    requires base <= |own|
    ensures Untouched(T0, T', own', base, tree)
  {
    hide Shl, Shr, Rev, Low, MaxLen, LenAt, TableBits, EntryOK, SlotPos, Sorted, Linked, LeafOK, PatOf;
    if st.h >= 0 {
      PushSlot(own, base, tree, st, k, i);
      LowSmall(i, st.w + tree.l);
      LowSplit(i, st.w, tree.l);
      LowBound(Shr(i, st.w), tree.l);
    }
    forall a | base <= a < |own'| && own'[a].start + Pow2(tree.l) <= a && own'[a].j > tree.l ensures T'[a] == T0[a] {
      if a < |own| { assert own'[a] == own[a]; }
    }
  }

  // ----- Moving on to the next code

  /** Leaving a table: if the next code does not start with the table's prefix then the table
    * is finished, and the next code starts exactly where the table's interval ends. */
  lemma PopFacts(lens: Lengths, i: nat, i': nat, k: nat, w: nat)
    requires w <= k <= MaxLen(lens) && i < Pow2(k) && i' < Pow2(k)
    requires Pos(lens, i') == Pos(lens, i) + Pow2(MaxLen(lens) - k)
    requires Low(i', w) != Low(i, w)
    ensures Pos(lens, Low(i, w)) + Pow2(MaxLen(lens) - w) <= Pos(lens, i')
    ensures i' < Pow2(w)
  {
    hide Shl, Shr, Rev, Low, MaxLen;
    var g, y := MaxLen(lens), Low(i, w);
    LowBound(i, w);
    IntervalAligned(lens, i, k, w);
    InCode(lens, i', y, w);
    PrefixPos(lens, i, w);
    var E := Pos(lens, y) + Pow2(g - w);
    assert Pos(lens, i') == E;
    // E is a multiple of 2^(g-w), so the bits of i' above w are all zero
    RevSplit(w, g - w, y);
    LowSmall(y, w);
    RevZero(g - w);
    ShlAdd(Rev(w, y), 1, g - w);
    LowMultiple(Rev(w, y) + 1, g - w);
    RevPrefix(w, g - w, i');
    RevInjective(g - w, Shr(i', w), 0);
    LowSmall(0, g - w);
    LowSmall(i', k);
    LowSplit(i', w, k - w);
    LowLow(Shr(i', w), k - w, g - w);
    LowSmall(0, k - w);
    ShlZero(w);
    LowBound(i', w);
  }

  lemma LowMultiple(q: nat, n: nat)
    ensures Shl(q, n) >= 0 && Low(Shl(q, n), n) == 0
  {
    Unsplit(0, q, n);
  }

  /** Dropping the innermost table. */
  function Popped(st: Stack, l: nat): Stack {
    st.(h := st.h - 1, w := st.w - l)
  }

  lemma PopShape(own: seq<Label>, base: nat, tree: Tree, st: Stack, i: nat)
    requires Shape(own, base, tree, st, i) && st.h > 0
    ensures Shape(own, base, tree, Popped(st, tree.l), i)
    ensures Popped(st, tree.l).w >= 0
  {
    hide Low;
    var st' := Popped(st, tree.l);
    assert Step(own, base, tree, st, i, st.h - 1);
    forall d | 0 <= d <= st'.h ensures Level(own, base, st', i, d) {
      assert Level(own, base, st, i, d);
    }
    forall d | 0 <= d < st'.h ensures Step(own, base, tree, st', i, d) {
      assert Step(own, base, tree, st, i, d);
    }
  }

  lemma PopSorted(own: seq<Label>, base: nat, tree: Tree, st: Stack, i: nat, P: nat)
    requires Shape(own, base, tree, st, i) && st.h > 0
    requires Labelled(own, base, tree)
    requires Sorted(own, base, tree, st, P)
    requires st.w >= 0 && Finished(tree, own[st.u[st.h]], P)
    ensures Sorted(own, base, tree, Popped(st, tree.l), P)
  {
    hide Shl, Low, Rev, Finished, MaxLen, TableBits;
    var st' := Popped(st, tree.l);
    forall a | base <= a < |own|
      ensures OnStack(st', own[a].start) || Finished(tree, own[a], P)
    {
      if OnStack(st, own[a].start) {
        var d :| 0 <= d <= st.h && d < |st.u| && st.u[d] == own[a].start;
        if d == st.h {
          assert LabelOK(own, base, tree, a);
          assert own[own[a].start] == own[a];
        } else {
          assert st'.u[d] == own[a].start;
        }
      }
    }
  }

  /** Once the innermost open table's prefix fits the next code, all do. */
  lemma ShapeMoves(own: seq<Label>, base: nat, tree: Tree, st: Stack, i: nat, i': nat)
    requires Shape(own, base, tree, st, i) && st.h >= 0 && st.w >= 0 && tree.l > 0
    requires Low(i', st.w) == Low(i, st.w)
    ensures Shape(own, base, tree, st, i')
  {
    hide Low;
    forall d | 0 <= d <= st.h ensures Level(own, base, st, i', d) {
      assert Level(own, base, st, i, d);
      WidthMono(own, base, tree, st, i, d, st.h);
      LowLow(i, own[st.u[d]].w, st.w);
      LowLow(i', own[st.u[d]].w, st.w);
    }
    forall d | 0 <= d < st.h ensures Step(own, base, tree, st, i', d) {
      assert Step(own, base, tree, st, i, d);
      assert Level(own, base, st, i', d) && Level(own, base, st, i', d + 1);
    }
  }

  /** With everything below the next code done, the links of the open tables are right. */
  lemma LinkedByDone(T: seq<Huft>, own: seq<Label>, base: nat, tree: Tree, st: Stack, i: nat, P: nat)
    requires |own| <= |T| && Shape(own, base, tree, st, i) && DoneBelow(T, own, base, tree, P)
    requires st.w <= MaxLen(tree.lens) && tree.l > 0 && Pos(tree.lens, i) < P
    ensures Linked(T, own, base, tree, st, i)
  {
    hide Shl, Shr, Rev, Low, MaxLen, LenAt, TableBits, EntryOK, Pos, LeafOK, PatOf;
    forall d | 0 <= d < st.h
      ensures Level(own, base, st, i, d) && LinkOK(T, own, tree, st, d)
    {
      assert Step(own, base, tree, st, i, d);
      LinkSlotAt(own, base, tree, st, i, d);
      WidthMono(own, base, tree, st, i, d + 1, st.h);
      PrefixPos(tree.lens, i, own[st.u[d + 1]].w);
      assert EntryOK(T, own, tree, LinkSlot(own, st, d));
    }
  }
}
