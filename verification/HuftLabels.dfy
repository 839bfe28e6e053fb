/** The invariant of table construction.
  *
  * Codes are handed out in canonical order, so the code space below some position `P` is done
  * and the rest is not.  Every table entry is labelled with the table it belongs to; an entry
  * whose slot lies below `P` is final, and that is all the construction has to keep.
  */
module HuftLabels {
  import opened Bits
  import opened Canonical
  import opened HuftTables

  /** The table an entry belongs to: its first address, its size in bits, and the bits already
    * consumed when the decoder reaches it. */
  datatype Label = Label(start: nat, j: nat, w: nat, pat: nat)

  /** The bits read when entry `a` is reached: those before the table, then the index. */
  function PatOf(L: Label, a: nat): nat
    requires L.start <= a
  {
    L.pat + Shl(a - L.start, L.w)
  }

  /** The code space position of entry `a`. */
  function SlotPos(tree: Tree, L: Label, a: nat): nat
    requires L.start <= a
  {
    Pos(tree.lens, PatOf(L, a))
  }

  /** `w` is a multiple of `l`: a number of bits after which a table can start. */
  ghost predicate IsLevel(l: nat, w: nat)
  {
    w == 0 || (0 < l <= w && IsLevel(l, w - l))
  }

  ghost predicate LabelOK(own: seq<Label>, base: nat, tree: Tree, a: nat)
    requires a < |own|
  {
    var L := own[a];
    && base <= L.start <= a < L.start + Pow2(L.j) <= |own|
    && L.w < MaxLen(tree.lens) && IsLevel(tree.l, L.w)
    && L.pat < Pow2(L.w)
    && L.j == TableBits(tree, L.w, L.pat)
    && forall d :: L.start <= d < L.start + Pow2(L.j) ==> own[d] == L
  }

  ghost predicate Labelled(own: seq<Label>, base: nat, tree: Tree) {
    && MaxLen(tree.lens) > 0
    && forall a :: base <= a < |own| ==> LabelOK(own, base, tree, a)
  }

  /** Entry `a` is right: it ends the code at its position, or links to a table labelled as
    * the continuation of its slot.  Of tables that are too deep (see `TableBits`) it is
    * asked only that the first entry is a link. */
  ghost predicate EntryOK(T: seq<Huft>, own: seq<Label>, tree: Tree, a: nat)
    requires a < |own| <= |T| && own[a].start <= a && MaxLen(tree.lens) > 0
  {
    var L, e, v := own[a], T[a], SlotPos(tree, own[a], a);
    if L.j > tree.l then a == L.start ==> e.bits == tree.l
    else if LenAt(tree.lens, v) <= L.w + L.j then LeafOK(e, tree, L.w, v)
    else
      && L.j == tree.l
      && e.bits == tree.l
      && 0 < e.exop < 16
      && 0 < e.base
      && a + e.base < |own|
      && own[a + e.base] == Label(a + e.base, e.exop, L.w + tree.l, PatOf(L, a))
  }

  /** Everything below code space position `P` is done. */
  ghost predicate DoneBelow(T: seq<Huft>, own: seq<Label>, base: nat, tree: Tree, P: nat)
    requires |own| <= |T|
  {
    && Labelled(own, base, tree)
    && forall a :: base <= a < |own| && own[a].start <= a && SlotPos(tree, own[a], a) < P
                   ==> EntryOK(T, own, tree, a)
  }

  /** No prefix that a table is made for has only codes of more than `l` further bits. */
  ghost predicate Shallow(tree: Tree)
    requires MaxLen(tree.lens) > 0
  {
    forall w, i :: 0 <= w < MaxLen(tree.lens) && 0 <= i < Pow2(w) && IsLevel(tree.l, w)
      ==> LenAt(tree.lens, Pos(tree.lens, i)) <= w + tree.l
  }

  lemma ShallowTables(own: seq<Label>, base: nat, tree: Tree, a: nat)
    requires Labelled(own, base, tree) && Shallow(tree) && base <= a < |own|
    ensures own[a].j <= tree.l
  {
    hide Shl, Rev, MaxLen, LenAt;
    assert LabelOK(own, base, tree, a);
    assert LenAt(tree.lens, Pos(tree.lens, own[a].pat)) <= own[a].w + tree.l;
  }

  // ----- When the whole code space is done, the tables are right

  lemma PatBound(L: Label, a: nat)
    requires L.pat < Pow2(L.w) && L.start <= a < L.start + Pow2(L.j)
    ensures PatOf(L, a) < Pow2(L.w + L.j)
    ensures Low(PatOf(L, a), L.w) == L.pat && Shr(PatOf(L, a), L.w) == a - L.start
  {
    Unsplit(L.pat, a - L.start, L.w);
    ShlMono(a - L.start + 1, Pow2(L.j), L.w);
    ShlAdd(a - L.start, 1, L.w);
    Pow2Add(L.j, L.w);
  }

  lemma {:induction false} DoneIsTable(T: seq<Huft>, own: seq<Label>, base: nat, tree: Tree, t: nat)
    requires |own| <= |T|
    requires DoneBelow(T, own, base, tree, Pow2(MaxLen(tree.lens)))
    requires Shallow(tree)
    requires base <= t < |own| && own[t].start == t
    ensures IsTable(T, tree, t, own[t].j, own[t].w, own[t].pat)
    decreases |T| - t
  {
    hide Shl, Shr, Rev, Low, MaxLen, LenAt, SymbolAt, TableBits, LeafOK;
    var L := own[t];
    assert LabelOK(own, base, tree, t);
    assert TableBits(tree, L.w, L.pat) == L.j;
    forall i | 0 <= i < Pow2(L.j)
      ensures IsSlot(T, tree, t, L.j, L.w, L.pat, i)
    {
      var a := t + i;
      assert own[a] == L;
      ShallowTables(own, base, tree, a);
      RevBound(MaxLen(tree.lens), PatOf(L, a));
      assert EntryOK(T, own, tree, a);
      if LenAt(tree.lens, SlotPos(tree, L, a)) > L.w + L.j {
        DoneIsTable(T, own, base, tree, a + T[a].base);
        assert LabelOK(own, base, tree, a + T[a].base);
      }
    }
  }

  // ----- Only shallow codes get right tables

  /** The first entry of a table that is too deep is a link, where there should be a code's end. */
  lemma {:induction false} DeepFirst(T: seq<Huft>, own: seq<Label>, base: nat, tree: Tree, t: nat)
    requires |own| <= |T| && DoneBelow(T, own, base, tree, Pow2(MaxLen(tree.lens)))
    requires base <= t < |own| && own[t].start == t && own[t].j > tree.l
    ensures !IsTable(T, tree, t, own[t].j, own[t].w, own[t].pat)
  {
    hide Shl, Shr, Low, MaxLen, LenAt, SymbolAt, Rev, IsTable;
    var L := own[t];
    ShlZero(L.w);
    RevBound(MaxLen(tree.lens), L.pat);
    assert EntryOK(T, own, tree, t);
    if IsTable(T, tree, t, L.j, L.w, L.pat) { DeepSlot(T, tree, t, L.j, L.w, L.pat); }
  }

  lemma DeepSlot(T: seq<Huft>, tree: Tree, t: nat, j: nat, w: nat, pat: nat)
    requires IsTable(T, tree, t, j, w, pat) && j > tree.l
    ensures t < |T| && T[t].bits == j
  {
    hide Shl, Shr, Low, MaxLen, LenAt, SymbolAt, Rev;
    ShlZero(w);
    assert IsSlot(T, tree, t, j, w, pat, 0);
  }

  /** Table positions are `l` bits apart. */
  lemma {:induction false} LevelGap(l: nat, a: nat, b: nat)
    requires IsLevel(l, a) && IsLevel(l, b) && a < b
    ensures a + l <= b
  {
    if a > 0 { LevelGap(l, a - l, b - l); }
  }

  /** Where all codes with a prefix are too long, no table above it is right. */
  lemma {:induction false} DeepFails(T: seq<Huft>, own: seq<Label>, base: nat, tree: Tree, t: nat, w: nat, i: nat)
    requires |own| <= |T| && DoneBelow(T, own, base, tree, Pow2(MaxLen(tree.lens)))
    requires base <= t < |own| && own[t].start == t && own[t].w <= w && Low(i, own[t].w) == own[t].pat
    requires w < MaxLen(tree.lens) && i < Pow2(w) && IsLevel(tree.l, w)
    requires LenAt(tree.lens, Pos(tree.lens, i)) > w + tree.l
    ensures !IsTable(T, tree, t, own[t].j, own[t].w, own[t].pat)
    decreases w - own[t].w
  {
    hide Shl, Shr, Low, MaxLen, LenAt, SymbolAt, Rev, LeafOK, IsTable;
    var L := own[t];
    assert LabelOK(own, base, tree, t);
    if L.w == w { LowSmall(i, w); DeepHere(tree, w, i); }
    if L.j > tree.l {
      DeepFirst(T, own, base, tree, t);
    } else if IsTable(T, tree, t, L.j, L.w, L.pat) {
      LevelGap(tree.l, L.w, w);
      Lookup(T, tree, t, L.j, L.w, i);
      var a := t + Low(Shr(i, L.w), L.j);
      LowBound(Shr(i, L.w), L.j);
      assert own[a] == L;
      LowSplit(i, L.w, L.j);
      var p := Low(i, L.w + L.j);
      assert PatOf(L, a) == p;
      PrefixPos(tree.lens, i, L.w + L.j);
      if LenAt(tree.lens, Pos(tree.lens, p)) <= L.w + L.j {
        SameCode(tree.lens, Pos(tree.lens, p), Pos(tree.lens, i), L.w + L.j);
      }
      RevBound(MaxLen(tree.lens), p);
      assert EntryOK(T, own, tree, a);
      DeepFails(T, own, base, tree, a + T[a].base, w, i);
    }
  }

  /** Following the tables along stream `x`, the decoder looks at entry `a`. */
  ghost predicate Visits(T: seq<Huft>, t: nat, j: nat, x: nat, a: nat)
    decreases |T| - t
  {
    var s := t + Low(x, j);
    && s < |T|
    && (s == a || (0 < T[s].exop < 16 && 0 < T[s].base && s + T[s].base <= |T|
                   && Visits(T, s + T[s].base, T[s].exop, Shr(x, T[s].bits), a)))
  }

  /** There is a stream for which the decoder looks at an entry that is what it was before. */
  ghost predicate ReadsUnwritten(T0: seq<Huft>, T: seq<Huft>, t: nat, j: nat) {
    exists x: nat, a: nat :: Visits(T, t, j, x, a) && a < |T| && a < |T0| && T[a] == T0[a]
  }

  /** In tables that are too deep only the first 2^l entries have been written, and behind the tables
    * none. */
  ghost predicate Untouched(T0: seq<Huft>, T: seq<Huft>, own: seq<Label>, base: nat, tree: Tree) {
    && |own| <= |T| == |T0|
    && (forall a :: base <= a < |own| && own[a].start + Pow2(tree.l) <= a && own[a].j > tree.l ==> T[a] == T0[a])
    && forall a :: |own| <= a < |T| ==> T[a] == T0[a]
  }

  /** Where all codes with a prefix are too long, the decoder comes to a table that is too deep. */
  lemma {:induction false} FindDeep(T: seq<Huft>, own: seq<Label>, base: nat, tree: Tree, t: nat, w: nat, i: nat) returns (d: nat)
    requires |own| <= |T| && DoneBelow(T, own, base, tree, Pow2(MaxLen(tree.lens)))
    requires base <= t < |own| && own[t].start == t && own[t].w <= w && Low(i, own[t].w) == own[t].pat
    requires w < MaxLen(tree.lens) && i < Pow2(w) && IsLevel(tree.l, w)
    requires LenAt(tree.lens, Pos(tree.lens, i)) > w + tree.l
    ensures base <= d < |own| && own[d].start == d && own[d].j > tree.l
    ensures own[t].w <= own[d].w && Low(i, own[d].w) == own[d].pat
    ensures forall x: nat, a: nat :: Low(x, own[d].w) == own[d].pat && Visits(T, d, own[d].j, Shr(x, own[d].w), a)
                                     ==> Visits(T, t, own[t].j, Shr(x, own[t].w), a)
    decreases w - own[t].w
  {
    hide Shl, Shr, Low, MaxLen, LenAt, SymbolAt, Rev, LeafOK, Visits, TableBits;
    var L := own[t];
    assert LabelOK(own, base, tree, t);
    if L.w == w { LowSmall(i, w); DeepHere(tree, w, i); }
    if L.j > tree.l {
      d := t;
    } else {
      LevelGap(tree.l, L.w, w);
      var s := LinkTo(T, own, base, tree, t, w, i);
      d := FindDeep(T, own, base, tree, s + T[s].base, w, i);
      forall x: nat, a: nat | Low(x, own[d].w) == own[d].pat && Visits(T, d, own[d].j, Shr(x, own[d].w), a)
        ensures Visits(T, t, L.j, Shr(x, L.w), a)
      {
        LowLow(x, L.w + tree.l, own[d].w);
        LowLow(i, L.w + tree.l, own[d].w);
        LowSplit(x, L.w, tree.l);
        LowSplit(i, L.w, tree.l);
        ShrShr(x, L.w, tree.l);
        VisitsOn(T, t, L.j, Shr(x, L.w), a);
      }
    }
  }

  lemma VisitsOn(T: seq<Huft>, t: nat, j: nat, x: nat, a: nat)
    requires var s := t + Low(x, j);
             s < |T| && 0 < T[s].exop < 16 && 0 < T[s].base && s + T[s].base <= |T|
             && Visits(T, s + T[s].base, T[s].exop, Shr(x, T[s].bits), a)
    ensures Visits(T, t, j, x, a)
  {
  }

  /** The entry of a table that leads on to longer codes. */
  lemma LinkTo(T: seq<Huft>, own: seq<Label>, base: nat, tree: Tree, t: nat, w: nat, i: nat) returns (s: nat)
    requires |own| <= |T| && DoneBelow(T, own, base, tree, Pow2(MaxLen(tree.lens)))
    requires base <= t < |own| && own[t].start == t && own[t].w + tree.l <= w && Low(i, own[t].w) == own[t].pat
    requires own[t].j <= tree.l && w < MaxLen(tree.lens) && i < Pow2(w)
    requires LenAt(tree.lens, Pos(tree.lens, i)) > w + tree.l
    ensures s == t + Low(Shr(i, own[t].w), own[t].j) < |T| && own[t].j == T[s].bits == tree.l
    ensures 0 < T[s].exop < 16 && 0 < T[s].base && s + T[s].base < |own|
    ensures var n := s + T[s].base;
            base <= n && own[n] == Label(n, T[s].exop, own[t].w + tree.l, Low(i, own[t].w + tree.l))
  {
    hide Shl, Shr, Low, MaxLen, LenAt, SymbolAt, Rev, LeafOK, TableBits;
    var L := own[t];
    assert LabelOK(own, base, tree, t);
    s := t + Low(Shr(i, L.w), L.j);
    LowBound(Shr(i, L.w), L.j);
    assert own[s] == L;
    LowSplit(i, L.w, L.j);
    var p := Low(i, L.w + L.j);
    assert PatOf(L, s) == p;
    PrefixPos(tree.lens, i, L.w + L.j);
    if LenAt(tree.lens, Pos(tree.lens, p)) <= L.w + L.j && 0 < L.w + L.j {
      SameCode(tree.lens, Pos(tree.lens, p), Pos(tree.lens, i), L.w + L.j);
    }
    NoneShort(tree.lens, Pos(tree.lens, p));
    RevBound(MaxLen(tree.lens), p);
    assert EntryOK(T, own, tree, s);
  }

  lemma NoneShort(lens: Lengths, v: nat)
    requires MaxLen(lens) > 0
    ensures LenAt(lens, v) > 0
  {
  }

  /** So there is a stream for which it reads an entry that was never written. */
  lemma DeepReads(T0: seq<Huft>, T: seq<Huft>, own: seq<Label>, base: nat, tree: Tree, w: nat, i: nat)
    requires |own| == |T| <= |T0| && base < |own| && own[base].start == base && own[base].w == 0 && own[base].pat == 0
    requires DoneBelow(T, own, base, tree, Pow2(MaxLen(tree.lens)))
    requires forall a :: base <= a < |own| && own[a].start + Pow2(tree.l) <= a && own[a].j > tree.l ==> T[a] == T0[a]
    requires w < MaxLen(tree.lens) && i < Pow2(w) && IsLevel(tree.l, w)
    requires LenAt(tree.lens, Pos(tree.lens, i)) > w + tree.l
    ensures ReadsUnwritten(T0, T, base, own[base].j)
  {
    hide Shl, Shr, Low, MaxLen, LenAt, SymbolAt, Rev, LeafOK, Visits, TableBits, DoneBelow;
    LowZero(i);
    var d := FindDeep(T, own, base, tree, base, w, i);
    var L := own[d];
    DoneLabel(T, own, base, tree, d);
    Pow2Less(tree.l, L.j);
    var a := d + Pow2(tree.l);
    var x := PatOf(L, a);
    PatBound(L, a);
    LowSmall(Pow2(tree.l), L.j);
    assert own[a] == L;
    VisitsHere(T, d, L.j, Pow2(tree.l));
    assert Shr(x, 0) == x by { LowZero(x); }
    assert Visits(T, base, own[base].j, x, a);
  }

  lemma DoneLabel(T: seq<Huft>, own: seq<Label>, base: nat, tree: Tree, d: nat)
    requires |own| <= |T| && DoneBelow(T, own, base, tree, Pow2(MaxLen(tree.lens))) && base <= d < |own|
    ensures LabelOK(own, base, tree, d)
  {
  }

  lemma VisitsHere(T: seq<Huft>, t: nat, j: nat, x: nat)
    requires t + Low(x, j) < |T|
    ensures Visits(T, t, j, x, t + Low(x, j))
  {
  }

  lemma LowZero(x: nat)
    ensures Low(x, 0) == 0 && Shr(x, 0) == x
  {
  }

  lemma Pow2Less(m: nat, n: nat)
    requires m < n
    ensures Pow2(m) < Pow2(n)
  {
    Pow2Mono(m + 1, n);
  }

  lemma DeepHere(tree: Tree, w: nat, i: nat)
    requires w < MaxLen(tree.lens) && LenAt(tree.lens, Pos(tree.lens, i)) > w + tree.l
    ensures TableBits(tree, w, i) > tree.l
  {
  }

  // ----- Positions within a table

  /** All slots of the table for prefix `pat` lie in the interval of that prefix. */
  lemma SlotInTable(tree: Tree, L: Label, a: nat)
    requires L.w + L.j <= MaxLen(tree.lens)
    requires L.pat < Pow2(L.w) && L.start <= a < L.start + Pow2(L.j)
    ensures Pos(tree.lens, L.pat) <= SlotPos(tree, L, a)
    ensures SlotPos(tree, L, a) < Pos(tree.lens, L.pat) + Pow2(MaxLen(tree.lens) - L.w)
  {
    hide Shl, Shr, Rev, Low, MaxLen;
    PatBound(L, a);
    PrefixPos(tree.lens, PatOf(L, a), L.w);
  }

  /** The interval of a prefix of `w` bits ends at a multiple of 2^(g-w), so a code of at least
    * `w` bits starting inside it also ends inside it. */
  lemma IntervalAligned(lens: Lengths, x: nat, k: nat, w: nat)
    requires w <= k <= MaxLen(lens)
    requires x < Pow2(k)
    ensures Pos(lens, x) + Pow2(MaxLen(lens) - k)
            <= Pos(lens, Low(x, w)) + Pow2(MaxLen(lens) - w)
  {
    hide Shl, Shr, Rev, Low, MaxLen;
    var g := MaxLen(lens);
    LowSmall(x, k);
    RevSplit(k, g - k, x);
    RevZero(g - k);
    RevSplit(w, g - w, Low(x, w));
    LowBound(x, w);
    LowSmall(Low(x, w), w);
    RevZero(g - w);
    RevLow(w, w, x);
    // Rev(k, x) = Rev(w, x) * 2^(k-w) + Rev(k-w, x >> w), and the latter is below 2^(k-w)
    RevSplit(w, k - w, x);
    RevBound(k - w, Shr(x, w));
    ShlMono(Rev(k, x), Shl(Rev(w, x), k - w) + Pow2(k - w), g - k);
    ShlAdd(Shl(Rev(w, x), k - w), Pow2(k - w), g - k);
    ShlShl(Rev(w, x), k - w, g - k);
    Pow2Add(k - w, g - k);
  }

  /** Positions from `P` up to the end of its `k`-bit code are those of the streams that start
    * with the same `k` bits. */
  lemma InCode(lens: Lengths, x: nat, i: nat, k: nat)
    requires k <= MaxLen(lens) && i < Pow2(k)
    ensures Pos(lens, i) <= Pos(lens, x) < Pos(lens, i) + Pow2(MaxLen(lens) - k)
            <==> Low(x, k) == i
  {
    hide Shl, Shr, Rev, Low, MaxLen;
    var g := MaxLen(lens);
    LowSmall(i, k);
    RevPrefix(k, g - k, i);
    RevPrefix(k, g - k, x);
    RevInjective(k, i, x);
    RevSplit(k, g - k, i);
    RevZero(g - k);
    ShlAdd(Rev(k, i), 1, g - k);
    ShrQuotient(Pos(lens, x), g - k, Rev(k, i));
  }
}
