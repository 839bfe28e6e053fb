/** How much table space a code takes. */
module HuftSpace {
  import opened Bits
  import opened Canonical
  import opened HuftTables
  import opened HuftLabels

  /** The first level, from `w` on, at which prefix `i` is a whole prefix. */
  function FirstLevel(tree: Tree, i: nat, w: nat): (r: nat)
    ensures r >= w
    decreases MaxLen(tree.lens) - w
  {
    if w >= MaxLen(tree.lens) || tree.l == 0 || i < Pow2(w) then w
    else FirstLevel(tree, i, w + tree.l)
  }

  /** The tables from level `w` on that are made just before the `k`-bit code `i`. */
  function LevelSpace(tree: Tree, i: nat, k: nat, w: nat): nat
    decreases k - w
  {
    if w >= k || w >= MaxLen(tree.lens) || tree.l == 0 then 0
    else Pow2(TableBits(tree, w, i)) + LevelSpace(tree, i, k, w + tree.l)
  }

  /** The tables made for the codes at positions `P` and above: one for each level at which
    * a code is the first of its prefix. */
  function SpaceFrom(tree: Tree, P: nat): nat
    requires MaxLen(tree.lens) > 0
    decreases Pow2(MaxLen(tree.lens)) - P
  {
    var g := MaxLen(tree.lens);
    if P >= Pow2(g) then 0
    else
      var i, k := Rev(g, P), LenAt(tree.lens, P);
      LevelSpace(tree, i, k, FirstLevel(tree, i, 0)) + SpaceFrom(tree, P + Pow2(g - k))
  }

  /** The number of table entries `huft_build` uses. */
  function Space(tree: Tree): nat
    requires MaxLen(tree.lens) > 0
  {
    SpaceFrom(tree, 0)
  }

  /** A prefix longer than `w` bits is first found beyond level `w`. */
  lemma {:induction false} FirstLevelSkip(tree: Tree, i: nat, w: nat)
    requires IsLevel(tree.l, w) && tree.l > 0
    requires w > 0 ==> w - tree.l < MaxLen(tree.lens) && i >= Pow2(w - tree.l)
    ensures FirstLevel(tree, i, 0) == FirstLevel(tree, i, w)
  {
    hide Shl, MaxLen;
    if w > 0 {
      var v := w - tree.l;
      if v > 0 { Pow2Mono(v - tree.l, v); }
      FirstLevelSkip(tree, i, v);
    }
  }

  lemma PowZero()
    ensures Pow2(0) == 1
  {
  }

  /** One table serves a code looked up all at once. */
  lemma {:induction false} LaterCodesFree(tree: Tree, P: nat)
    requires 0 < tree.l == MaxLen(tree.lens) && P > 0
    ensures SpaceFrom(tree, P) == 0
    decreases Pow2(MaxLen(tree.lens)) - P
  {
    hide Shl, MaxLen, TableBits, LenAt;
    var g := MaxLen(tree.lens);
    if P < Pow2(g) {
      var i, k := Rev(g, P), LenAt(tree.lens, P);
      PowZero();
      if i < Pow2(0) {
        assert i == 0;
        RevZero(g);
        RevRev(g, P);
        LowSmall(P, g);
      }
      assert FirstLevel(tree, i, 0) == g;
      LaterCodesFree(tree, P + Pow2(g - k));
    }
  }

  lemma SingleTableSpace(tree: Tree)
    requires 0 < tree.l == MaxLen(tree.lens)
    ensures Space(tree) <= Pow2(tree.l)
  {
    hide Shl, MaxLen, LenAt, Rev;
    var g := MaxLen(tree.lens);
    RevZero(g);
    var k := LenAt(tree.lens, 0);
    assert FirstLevel(tree, 0, 0) == 0;
    LaterCodesFree(tree, Pow2(g - k));
    Pow2Mono(TableBits(tree, 0, 0), g);
    assert LevelSpace(tree, 0, k, tree.l) == 0;
  }
}
