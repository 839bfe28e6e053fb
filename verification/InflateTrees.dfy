/** The codes of a DEFLATE block and the trees built for them. */
module InflateTrees {
  import opened Bits
  import opened Canonical
  import opened HuftTables
  import opened HuftLabels
  import opened HuftSpace
  import opened HuftBuild

  /** The smallest length for each of the symbols from 257 on. */
  const CPLENS: seq<nat> := [
    3, 4, 5, 6, 7, 8, 9, 10, 11, 13, 15, 17, 19, 23, 27, 31,
    35, 43, 51, 59, 67, 83, 99, 115, 131, 163, 195, 227, 258, 0, 0]

  /** How many bits are added to it; 112 marks the two symbols that must not occur. */
  const CPLEXT: seq<nat> := [
    0, 0, 0, 0, 0, 0, 0, 0, 1, 1, 1, 1, 2, 2, 2, 2,
    3, 3, 3, 3, 4, 4, 4, 4, 5, 5, 5, 5, 0, 112, 112]

  /** The smallest distance for each distance symbol. */
  const CPDIST: seq<nat> := [
    1, 2, 3, 4, 5, 7, 9, 13, 17, 25, 33, 49, 65, 97, 129, 193,
    257, 385, 513, 769, 1025, 1537, 2049, 3073, 4097, 6145,
    8193, 12289, 16385, 24577]

  /** How many bits are added to that. */
  const CPDEXT: seq<nat> := [
    0, 0, 0, 0, 1, 1, 2, 2, 3, 3, 4, 4, 5, 5, 6, 6,
    7, 7, 8, 8, 9, 9, 10, 10, 11, 11,
    12, 12, 13, 13]

  const BITS_ALPHABET := Alphabet(19, [], [])
  const LITERALS := Alphabet(257, CPLENS, CPLEXT)
  const DISTANCES := Alphabet(0, CPDIST, CPDEXT)

  /** The widths asked for: bit length codes, literals and lengths, distances. */
  const BITS_WIDTH: nat := 7
  const LITERAL_WIDTH: nat := 9
  const DISTANCE_WIDTH: nat := 6

  function MakeTree(lens: Lengths, al: Alphabet, m: nat): Tree
    requires MaxLen(lens) > 0
  {
    Tree(lens, Width(lens, m), al)
  }

  /** There are codes, they are not over-subscribed, and they are complete or of one bit only. */
  predicate Decodable(lens: Lengths) {
    && MaxLen(lens) > 0
    && !OverSubscribed(lens)
    && (Incomplete(lens) ==> MaxLen(lens) == 1)
  }

  /** A code can be used: its tables also fit into the space left. */
  predicate Usable(lens: Lengths, al: Alphabet, m: nat, used: nat) {
    && Decodable(lens)
    && used + Space(MakeTree(lens, al, m)) <= MANY
  }

  /** The codes used in dynamic blocks are shallow, because they have few symbols. */
  lemma UsableShallow(lens: Lengths, al: Alphabet, m: nat)
    requires ValidLengths(lens) && MaxLen(lens) > 0 && !OverSubscribed(lens)
    requires Incomplete(lens) ==> MaxLen(lens) == 1
    requires |lens| < Pow2(m + 1)
    ensures Shallow(MakeTree(lens, al, m))
  {
    hide Shl, MaxLen, OverSubscribed, Incomplete, Shallow, MinLenFrom;
    var tree := MakeTree(lens, al, m);
    if tree.l == MaxLen(lens) {
      SingleTableShallow(tree);
    } else {
      Pow2Mono(m + 1, tree.l + 1);
      CompleteIsShallow(tree);
    }
  }

  /** Such codes are looked up no wider than asked for: a code whose shortest length exceeds
    * `m` would have at least 2^(m+1) symbols. */
  lemma UsableWidth(lens: Lengths, m: nat)
    requires ValidLengths(lens) && MaxLen(lens) > 0 && !OverSubscribed(lens)
    requires Incomplete(lens) ==> MaxLen(lens) == 1
    requires 0 < m && |lens| < Pow2(m + 1)
    ensures Width(lens, m) <= m
  {
    hide Shl, MaxLen, OverSubscribed, Incomplete, MinLenFrom, LenAt, Count;
    var g := MaxLen(lens);
    if g > m {
      var tree := Tree(lens, m, BITS_ALPHABET);
      CompleteIsShallow(tree);
      PowZero();
      assert IsLevel(m, 0);
      RevZero(g);
      assert LenAt(lens, Pos(lens, 0)) <= 0 + m;
      ShortestFirst(lens);
    }
  }

  /** The code of all zeros is one of the shortest. */
  lemma ShortestFirst(lens: Lengths)
    requires MaxLen(lens) > 0
    ensures MinLenFrom(lens, 1) == LenAt(lens, 0)
  {
    hide MaxLen, Count, LenAt, Shl;
    var g, k := MaxLen(lens), LenAt(lens, 0);
    forall t | 1 <= t < k ensures Count(lens, t) == 0 {
      EndMono(lens, g, t, k - 1);
    }
    if k < g {
      if Count(lens, k) == 0 { ShlZero(g - k); }
    } else {
      CountAtMax(lens);
    }
    MinLenIs(lens, 1, k);
  }

  lemma SmallPowers()
    ensures Pow2(5) == 32 && Pow2(7) == 128 && Pow2(8) == 256 && Pow2(9) == 512 && Pow2(10) == 1024
    ensures Pow2(15) == 32768
  {
    Pow2Add(5, 5);
    Pow2Add(10, 5);
  }

  method TreesBits(c: Lengths, hp: array<Huft>, v: array<nat>)
    returns (ok: bool, tb: nat, bb: nat, ghost hn: nat)
    requires |c| == 19 && forall s :: 0 <= s < 19 ==> c[s] <= 7
    requires hp.Length == MANY && v.Length >= 19
    modifies hp, v
    ensures ok <==> Decodable(c)
    ensures ok ==>
      && MaxLen(c) <= 7 && bb == MaxLen(c) == MakeTree(c, BITS_ALPHABET, BITS_WIDTH).l
      && tb <= hn <= MANY
      && IsTable(hp[..hn], MakeTree(c, BITS_ALPHABET, BITS_WIDTH), tb, bb, 0, 0)
  {
    hide Shl, MaxLen, OverSubscribed, Incomplete, Shallow, IsTable, Space, MinLenFrom;
    SmallMax(c, 7);
    var r;
    r, tb, bb, hn := Build(c, BITS_ALPHABET, BITS_WIDTH, hp, 0, v);
    ok := !(r == DataError || r == BufError || bb == 0);
    if MaxLen(c) > 0 {
      var tree := MakeTree(c, BITS_ALPHABET, BITS_WIDTH);
      SingleTableShallow(tree);
      SingleTableSpace(tree);
      Pow2Mono(MaxLen(c), 7);
      SmallPowers();
    }
  }

  lemma SmallMax(c: Lengths, n: nat)
    requires forall s :: 0 <= s < |c| ==> c[s] <= n
    ensures MaxLen(c) <= n
  {
  }

  /** Both trees of a dynamic block can be used.  Having no distance code at all is allowed if
    * there is no length code either. */
  predicate DynamicUsable(lit: Lengths, dist: Lengths) {
    && Usable(lit, LITERALS, LITERAL_WIDTH, 0)
    && (if MaxLen(dist) == 0 then |lit| <= 257
        else Usable(dist, DISTANCES, DISTANCE_WIDTH, Space(MakeTree(lit, LITERALS, LITERAL_WIDTH))))
  }

  /** The literal/length and distance tables a block decodes with. */
  ghost predicate TreesReady(T: seq<Huft>, lit: Tree, tl: nat, hl: nat, dist: Tree, td: nat, hd: nat) {
    && hl <= |T| && hd <= |T|
    && 0 < MaxLen(lit.lens)
    && IsTable(T[..hl], lit, tl, lit.l, 0, 0)
    && (MaxLen(dist.lens) > 0 ==> IsTable(T[..hd], dist, td, dist.l, 0, 0))
  }

  /** A table does not depend on entries before its first or behind the space in use. */
  lemma {:induction false} TableFrame(T: seq<Huft>, T': seq<Huft>, tree: Tree, t: nat, j: nat, w: nat, pat: nat)
    requires IsTable(T, tree, t, j, w, pat)
    requires |T'| == |T| && forall a :: t <= a < |T| ==> T'[a] == T[a]
    ensures IsTable(T', tree, t, j, w, pat)
    decreases |T| - t
  {
    hide Shl, Rev, MaxLen, LenAt, TableBits, LeafOK;
    forall i | 0 <= i < Pow2(j)
      ensures IsSlot(T', tree, t, j, w, pat, i)
    {
      assert IsSlot(T, tree, t, j, w, pat, i);
      var e := T[t + i];
      if LenAt(tree.lens, Pos(tree.lens, pat + Shl(i, w))) > w + j {
        TableFrame(T, T', tree, t + i + e.base, e.exop, w + tree.l, pat + Shl(i, w));
      }
    }
  }

  method TreesDynamic(lit: Lengths, dist: Lengths, hp: array<Huft>, v: array<nat>)
    returns (ok: bool, tl: nat, bl: nat, td: nat, bd: nat, ghost hl: nat, ghost hd: nat)
    requires 257 <= |lit| <= 286 && 1 <= |dist| <= 30
    requires ValidLengths(lit) && ValidLengths(dist)
    requires hp.Length == MANY && v.Length >= 288
    modifies hp, v
    ensures ok <==> DynamicUsable(lit, dist)
    ensures ok ==> bl == MakeTree(lit, LITERALS, LITERAL_WIDTH).l
    ensures ok ==> TreesReady(hp[..], MakeTree(lit, LITERALS, LITERAL_WIDTH), tl, hl, Tree(dist, bd, DISTANCES), td, hd)
    ensures ok && MaxLen(dist) > 0 ==> bd == MakeTree(dist, DISTANCES, DISTANCE_WIDTH).l
    ensures ok && MaxLen(dist) == 0 ==> bd == 0
  {
    hide Shl, MaxLen, OverSubscribed, Incomplete, Shallow, IsTable, Space, MinLenFrom, SpaceFrom;
    SmallPowers();
    bd, td, hd := 0, 0, 0;
    var r, hn;
    r, tl, bl, hn := Build(lit, LITERALS, LITERAL_WIDTH, hp, 0, v);
    hl := hn;
    if r != Ok || bl == 0 {
      return false, tl, bl, td, bd, hl, hd;
    }
    ghost var T := hp[..hl];
    ghost var tree := MakeTree(lit, LITERALS, LITERAL_WIDTH);
    UsableShallow(lit, LITERALS, LITERAL_WIDTH);
    r, td, bd, hn := Build(dist, DISTANCES, DISTANCE_WIDTH, hp, hn, v);
    hd := hn;
    if r != Ok || (bd == 0 && |lit| > 257) {
      return false, tl, bl, td, bd, hl, hd;
    }
    TableFrame(T, hp[..hl], tree, tl, bl, 0, 0);
    assert hp[..][..hl] == hp[..hl] && hp[..][..hd] == hp[..hd];
    if MaxLen(dist) > 0 { UsableShallow(dist, DISTANCES, DISTANCE_WIDTH); }
    ok := true;
  }

  // ----- The fixed codes

  /** The literal/length code of section 3.2.6 of RFC 1951, with the two unused codes. */
  function FixedLiteralLengths(): (l: Lengths)
    ensures |l| == 288
  {
    seq(288, i => if i < 144 then 8 else if i < 256 then 9 else if i < 280 then 7 else 8)
  }

  function FixedDistanceLengths(): (l: Lengths)
    ensures |l| == 30
  {
    seq(30, i => 5)
  }

  lemma {:induction false} FixedLiteralCounts(i: nat, k: nat)
    requires i <= 288
    ensures Count(FixedLiteralLengths()[..i], k)
            == (if k == 7 then (if i <= 256 then 0 else if i <= 280 then i - 256 else 24)
                else if k == 8 then (if i <= 144 then i else if i <= 280 then 144 else i - 136)
                else if k == 9 then (if i <= 144 then 0 else if i <= 256 then i - 144 else 112)
                else 0)
  {
    if i > 0 {
      FixedLiteralCounts(i - 1, k);
      CountStep(FixedLiteralLengths(), i - 1, k);
    }
  }

  lemma {:induction false} FixedDistanceCounts(i: nat, k: nat)
    requires i <= 30
    ensures Count(FixedDistanceLengths()[..i], k) == if k == 5 then i else 0
  {
    if i > 0 {
      FixedDistanceCounts(i - 1, k);
      CountStep(FixedDistanceLengths(), i - 1, k);
    }
  }

  /** The fixed literal code is complete and fits one table of 9 bits. */
  lemma FixedLiteralUsable()
    ensures var l := FixedLiteralLengths();
            MaxLen(l) == 9 && ValidLengths(l) && !OverSubscribed(l) && !Incomplete(l)
  {
    hide MaxLen, OverSubscribed, Incomplete;
    var l := FixedLiteralLengths();
    assert l[..288] == l;
    SmallMax(l, 9);
    assert l[144] == 9;
    FixedLiteralCounts(288, 7);
    FixedLiteralCounts(288, 8);
    FixedLiteralCounts(288, 9);
    forall k | 1 <= k <= 6 ensures Count(l, k) == 0 { FixedLiteralCounts(288, k); }
    EndSkip(l, 9, 6);
    assert End(l, 9, 7) == Shl(24, 2) == 96;
    assert End(l, 9, 8) == 96 + Shl(152, 1) == 400;
    assert End(l, 9, 9) == 400 + 112;
    SmallPowers();
    KraftAtMax(l);
  }

  /** The fixed distance code lacks two codes. */
  lemma FixedDistanceUsable()
    ensures var l := FixedDistanceLengths();
            MaxLen(l) == 5 && ValidLengths(l) && !OverSubscribed(l) && Incomplete(l)
  {
    hide MaxLen, OverSubscribed, Incomplete;
    var l := FixedDistanceLengths();
    assert l[..30] == l;
    SmallMax(l, 5);
    assert l[0] == 5;
    FixedDistanceCounts(30, 5);
    forall k | 1 <= k <= 4 ensures Count(l, k) == 0 { FixedDistanceCounts(30, k); }
    EndSkip(l, 5, 4);
    assert End(l, 5, 5) == 30;
    SmallPowers();
    KraftAtMax(l);
  }

  function FixedLiteralTree(): Tree {
    Tree(FixedLiteralLengths(), 9, LITERALS)
  }

  function FixedDistanceTree(): Tree {
    Tree(FixedDistanceLengths(), 5, DISTANCES)
  }

  /** Set up the fixed tables.  The table space counter is the loop variable left over from
    * filling in the lengths, so the two tables start at entries 288 and 30. */
  method TreesFixed(hp: array<Huft>, v: array<nat>)
    returns (bl: nat, bd: nat, tl: nat, td: nat, ghost hl: nat, ghost hd: nat)
    requires hp.Length == MANY && v.Length >= 288
    modifies hp, v
    ensures bl == 9 && bd == 5
    ensures TreesReady(hp[..], FixedLiteralTree(), tl, hl, FixedDistanceTree(), td, hd)
  {
    hide Shl, MaxLen, OverSubscribed, Incomplete, Shallow, IsTable, Space, MinLenFrom, SpaceFrom;
    SmallPowers();
    FixedLiteralUsable();
    FixedDistanceUsable();
    var l: seq<nat> := [];
    var i := 0;
    while i < 144
      invariant i <= 144 && l == FixedLiteralLengths()[..i]
    {
      l := l + [8];
      i := i + 1;
    }
    while i < 256
      invariant 144 <= i <= 256 && l == FixedLiteralLengths()[..i]
    {
      l := l + [9];
      i := i + 1;
    }
    while i < 280
      invariant 256 <= i <= 280 && l == FixedLiteralLengths()[..i]
    {
      l := l + [7];
      i := i + 1;
    }
    while i < 288
      invariant 280 <= i <= 288 && l == FixedLiteralLengths()[..i]
    {
      l := l + [8];
      i := i + 1;
    }
    assert l == FixedLiteralLengths();
    SingleTableSpace(FixedLiteralTree());
    SingleTableShallow(FixedLiteralTree());
    var r, hn;
    r, tl, bl, hn := Build(l, LITERALS, 9, hp, i, v);
    hl := hn;
    ghost var T := hp[..hl];
    l := [];
    i := 0;
    while i < 30
      invariant i <= 30 && l == FixedDistanceLengths()[..i]
    {
      l := l + [5];
      i := i + 1;
    }
    assert l == FixedDistanceLengths();
    SingleTableSpace(FixedDistanceTree());
    SingleTableShallow(FixedDistanceTree());
    r, td, bd, hn := Build(l, DISTANCES, 5, hp, i, v);
    hd := hn;
    TableFrame(T, hp[..hl], FixedLiteralTree(), tl, bl, 0, 0);
    assert hp[..][..hl] == hp[..hl] && hp[..][..hd] == hp[..hd];
  }
}
