/** The numbers that sections 3.2.5 to 3.2.7 of RFC 1951 list, said without lists, and what makes them a
  * numbering: the ranges of lengths and of distances follow each other without gaps.
  */
module RfcNumbers {
  import opened Bits
  import opened Canonical
  import opened InflateTrees
  import opened Deflate

  // ----- Lengths and distances (section 3.2.5)

  /** The extra bits of length symbol 257 + `i`: none for the first eight, then one more every four; and none for
    * the last. */
  function LengthExtra(i: nat): nat {
    if i < 8 || i == 28 then 0 else i / 4 - 1
  }

  /** The smallest length it stands for; the last symbol stands for 258. */
  function LengthBase(i: nat): (n: nat)
    ensures n >= 3
  {
    if i < 8 then 3 + i else if i == 28 then 258 else 3 + Shl(4 + i % 4, i / 4 - 1)
  }

  /** The extra bits of a distance symbol: none for the first four, then one more every two. */
  function DistanceExtra(i: nat): nat {
    if i < 4 then 0 else i / 2 - 1
  }

  /** The smallest distance it stands for. */
  function DistanceBase(i: nat): (n: nat)
    ensures n >= 1
  {
    if i < 4 then 1 + i else 1 + Shl(2 + i % 2, i / 2 - 1)
  }

  /** Each symbol's distances start where those of the one before end, from 1 to 32768. */
  lemma DistanceNext(i: nat)
    ensures DistanceBase(0) == 1
    ensures DistanceBase(i + 1) == DistanceBase(i) + Pow2(DistanceExtra(i))
    ensures DistanceBase(29) + Pow2(DistanceExtra(29)) == 32769
  {
    SmallPowers();
    Pow2Add(2, 13);
    assert Shl(4, 13) == Pow2(15);
    if i >= 4 {
      var k := i / 2 - 1;
      ShlAdd(2 + i % 2, 1, k);
      if i % 2 == 1 { assert Shl(4, k) == Shl(2, k + 1) by { ShlTwice(2, k); } }
    }
    ShlAdd(3, 1, 13);
  }

  lemma ShlTwice(x: nat, k: nat)
    ensures Shl(x, k + 1) == Shl(2 * x, k)
  {
    ShlShl(x, 1, k);
  }

  /** Likewise for lengths, from 3 to 258, all but the last symbol. */
  lemma LengthNext(i: nat)
    requires i < 27
    ensures LengthBase(i + 1) == LengthBase(i) + Pow2(LengthExtra(i))
  {
    if i >= 8 {
      var k := i / 4 - 1;
      ShlAdd(4 + i % 4, 1, k);
      if i % 4 == 3 { ShlTwice(4, k); }
      hide Shl;
    } else {
      PowerZero();
      hide Shl;
      ShlFour();
    }
  }

  lemma PowerZero()
    ensures Pow2(0) == 1
  {
  }

  lemma ShlFour()
    ensures Shl(4, 1) == 8
  {
  }

  lemma LengthEnds()
    ensures LengthBase(0) == 3 && LengthBase(27) + Pow2(LengthExtra(27)) == 259 && LengthBase(28) == 258 && LengthExtra(28) == 0
  {
  }

  /** Symbol `i` with extra bits `e` stands for distance `d`. */
  predicate IsDistance(i: nat, e: nat, d: nat) {
    i < 30 && e < Pow2(DistanceExtra(i)) && d == DistanceBase(i) + e
  }

  /** Symbol 257 + `i` with extra bits `e` stands for length `n`. */
  predicate IsLength(i: nat, e: nat, n: nat) {
    i < 29 && e < Pow2(LengthExtra(i)) && n == LengthBase(i) + e
  }

  /** Every distance from 1 to 32768 belongs to one symbol only, with one value of its extra bits. */
  lemma DistanceOnce(d: nat) returns (i: nat, e: nat)
    requires 1 <= d <= 32768
    ensures IsDistance(i, e, d)
    ensures forall j: nat, f: nat :: IsDistance(j, f, d) ==> j == i && f == e
  {
    hide DistanceBase, DistanceExtra, Pow2;
    DistanceNext(29);
    i := DistanceFrom(d, 29);
    e := d - DistanceBase(i);
    forall j: nat, f: nat | IsDistance(j, f, d) ensures j == i && f == e {
      if j < i { DistanceLater(j, i); } else if i < j { DistanceLater(i, j); }
    }
  }

  lemma {:induction false} DistanceFrom(d: nat, n: nat) returns (i: nat)
    requires 1 <= d < DistanceBase(n) + Pow2(DistanceExtra(n))
    ensures i <= n && DistanceBase(i) <= d < DistanceBase(i) + Pow2(DistanceExtra(i))
  {
    hide DistanceBase, DistanceExtra, Pow2;
    i := n;
    if d < DistanceBase(n) {
      DistanceNext(if n == 0 then 0 else n - 1);
      i := DistanceFrom(d, n - 1);
    }
  }

  lemma {:induction false} DistanceLater(i: nat, j: nat)
    requires i < j
    ensures DistanceBase(i) + Pow2(DistanceExtra(i)) <= DistanceBase(j)
    decreases j
  {
    hide DistanceBase, DistanceExtra, Pow2;
    DistanceNext(j - 1);
    if i < j - 1 { DistanceLater(i, j - 1); }
  }

  /** So does every length from 3 to 257, and 258, but for the symbol that 258 has of its own. */
  lemma LengthOnce(n: nat) returns (i: nat, e: nat)
    requires 3 <= n <= 258
    ensures i < 28 && IsLength(i, e, n) && (n == 258 ==> i == 27 && e == 31)
    ensures forall j: nat, f: nat :: IsLength(j, f, n) ==> (j == i && f == e) || (j == 28 && f == 0 && n == 258)
    ensures n == 258 ==> IsLength(28, 0, n)
  {
    LengthEnds();
    PowerZero();
    LastExtra();
    hide LengthBase, LengthExtra, Pow2;
    i := LengthFrom(n, 27);
    e := n - LengthBase(i);
    if n == 258 && i < 27 { LengthLater(i, 27); }
    forall j: nat, f: nat | IsLength(j, f, n) ensures (j == i && f == e) || (j == 28 && f == 0 && n == 258) {
      if j < i { LengthLater(j, i); } else if i < j < 28 { LengthLater(i, j); }
    }
  }

  lemma LastExtra()
    ensures Pow2(LengthExtra(27)) == 32
  {
  }

  lemma {:induction false} LengthFrom(n: nat, k: nat) returns (i: nat)
    requires k < 28 && 3 <= n < LengthBase(k) + Pow2(LengthExtra(k))
    ensures i <= k && LengthBase(i) <= n < LengthBase(i) + Pow2(LengthExtra(i))
  {
    LengthEnds();
    hide LengthBase, LengthExtra, Pow2;
    i := k;
    if n < LengthBase(k) {
      LengthNext(if k == 0 then 0 else k - 1);
      i := LengthFrom(n, k - 1);
    }
  }

  lemma {:induction false} LengthLater(i: nat, j: nat)
    requires i < j < 28
    ensures LengthBase(i) + Pow2(LengthExtra(i)) <= LengthBase(j)
    decreases j
  {
    hide LengthBase, LengthExtra, Pow2;
    LengthNext(j - 1);
    if i < j - 1 { LengthLater(i, j - 1); }
  }

  lemma LengthMost(i: nat)
    requires i < 29
    ensures LengthBase(i) + Pow2(LengthExtra(i)) <= 259
  {
    LengthEnds();
    PowerZero();
    hide LengthBase, LengthExtra, Pow2;
    if i < 27 { LengthLater(i, 27); }
  }

  lemma DistanceMost(i: nat)
    requires i < 30
    ensures DistanceBase(i) + Pow2(DistanceExtra(i)) <= 32769
  {
    hide DistanceBase, DistanceExtra, Pow2;
    DistanceNext(29);
    if i < 29 { DistanceLater(i, 29); }
  }

  // ----- Code lengths (section 3.2.7)

  /** The order in which the lengths of the bit length code are sent. */
  const ORDER: seq<nat> := [16, 17, 18, 0, 8, 7, 9, 6, 10, 5, 11, 4, 12, 3, 13, 2, 14, 1, 15]

  /** The extra bits of a code length symbol that repeats a length. */
  function RepeatExtra(c: nat): nat {
    if c < 16 then 0 else if c == 17 then 3 else if c == 18 then 7 else 2
  }

  /** And how often it does so at least. */
  function RepeatLeast(c: nat): nat {
    if c == 18 then 11 else 3
  }

  /** The three symbols repeat a length 3 to 6, 3 to 10, and 11 to 138 times. */
  lemma RepeatRanges()
    ensures RepeatLeast(16) == 3 && RepeatLeast(16) + Pow2(RepeatExtra(16)) - 1 == 6
    ensures RepeatLeast(17) == 3 && RepeatLeast(17) + Pow2(RepeatExtra(17)) - 1 == 10
    ensures RepeatLeast(18) == 11 && RepeatLeast(18) + Pow2(RepeatExtra(18)) - 1 == 138
  {
    Powers();
  }

  // ----- The fixed codes (section 3.2.6)

  lemma {:induction false} NoShorterCodes(lens: Lengths, k: nat)
    requires forall j :: 1 <= j < k ==> Count(lens, j) == 0
    ensures NextCode(lens, k) == 0
    decreases k
  {
    if k > 1 { NoShorterCodes(lens, k - 1); }
  }

  /** The codes of literals and lengths: from 00110000, from 110010000, from 0000000 and from 11000000 on. */
  lemma FixedLiteralCode(s: nat)
    requires s < 288
    ensures var l := FixedLiteralLengths();
            && |l| == 288
            && l[s] == (if s < 144 then 8 else if s < 256 then 9 else if s < 280 then 7 else 8)
            && Code(l, s) == if s < 144 then 0x30 + s else if s < 256 then 0x190 + (s - 144)
                             else if s < 280 then s - 256 else 0xc0 + (s - 280)
  {
    hide Count, NextCode;
    var l := FixedLiteralLengths();
    assert l[..288] == l;
    forall j | 1 <= j < 7 ensures Count(l, j) == 0 { FixedLiteralCounts(288, j); }
    NoShorterCodes(l, 7);
    FixedLiteralCounts(288, 7);
    FixedLiteralCounts(288, 8);
    CodeNext(l, 8);
    CodeNext(l, 9);
    FixedLiteralCounts(s, l[s]);
  }

  lemma CodeNext(lens: Lengths, k: nat)
    requires k > 1
    ensures NextCode(lens, k) == 2 * (NextCode(lens, k - 1) + Count(lens, k - 1))
  {
  }

  /** Distance symbols are their own codes of five bits. */
  lemma FixedDistanceCode(s: nat)
    requires s < 30
    ensures var l := FixedDistanceLengths(); |l| == 30 && l[s] == 5 && Code(l, s) == s
  {
    hide Count, NextCode;
    var l := FixedDistanceLengths();
    forall j | 1 <= j < 5 ensures Count(l, j) == 0 {
      assert l[..30] == l;
      FixedDistanceCounts(30, j);
    }
    NoShorterCodes(l, 5);
    FixedDistanceCounts(s, 5);
  }

  // ----- The decoder's tables list these numbers

  lemma {:induction false} LengthList(i: nat)
    requires i < 29
    ensures |CPLENS| == |CPLEXT| == 31 && CPLENS[i] == LengthBase(i) && CPLEXT[i] == LengthExtra(i)
  {
    LengthSizes();
    LengthEnds();
    LengthExtraList(i);
    if 0 < i < 28 {
      hide LengthBase, LengthExtra, CPLENS, CPLEXT, Pow2;
      LengthList(i - 1);
      LengthNext(i - 1);
      LengthListNext(i - 1);
    }
  }

  lemma LengthSizes()
    ensures |CPLENS| == |CPLEXT| == 31 && CPLENS[0] == 3 && CPLENS[28] == 258
  {
  }

  lemma LengthExtraList(i: nat)
    requires i < 29
    ensures |CPLEXT| == 31 && CPLEXT[i] == LengthExtra(i)
  {
  }

  lemma LengthListNext(i: nat)
    requires i < 27
    ensures |CPLENS| == |CPLEXT| == 31 && CPLENS[i + 1] == CPLENS[i] + Pow2(CPLEXT[i])
  {
    Powers();
    hide Pow2;
  }

  lemma {:induction false} DistanceList(i: nat)
    requires i < 30
    ensures |CPDIST| == |CPDEXT| == 30 && CPDIST[i] == DistanceBase(i) && CPDEXT[i] == DistanceExtra(i)
  {
    ListSizes();
    DistanceNext(0);
    ExtraList(i);
    if i > 0 {
      hide DistanceBase, DistanceExtra, CPDIST, CPDEXT, Pow2;
      DistanceList(i - 1);
      DistanceNext(i - 1);
      ListNext(i - 1);
    }
  }

  lemma ListSizes()
    ensures |CPDIST| == |CPDEXT| == 30 && CPDIST[0] == 1
  {
  }

  lemma ExtraList(i: nat)
    requires i < 30
    ensures |CPDEXT| == 30 && CPDEXT[i] == DistanceExtra(i)
  {
  }

  lemma ListNext(i: nat)
    requires i < 29
    ensures |CPDIST| == |CPDEXT| == 30 && CPDIST[i + 1] == CPDIST[i] + Pow2(CPDEXT[i])
  {
    Powers();
    hide Pow2;
  }

  lemma Powers()
    ensures Pow2(0) == 1 && Pow2(1) == 2 && Pow2(2) == 4 && Pow2(3) == 8 && Pow2(4) == 16 && Pow2(5) == 32 && Pow2(6) == 64
    ensures Pow2(7) == 128 && Pow2(8) == 256 && Pow2(9) == 512 && Pow2(10) == 1024 && Pow2(11) == 2048 && Pow2(12) == 4096
    ensures Pow2(13) == 8192
  {
    SmallPowers();
    Pow2Add(5, 6);
    Pow2Add(5, 7);
    Pow2Add(5, 8);
    assert Pow2(6) == 2 * Pow2(5) && Pow2(11) == 2 * Pow2(10) && Pow2(12) == 2 * Pow2(11) && Pow2(13) == 2 * Pow2(12);
  }

  lemma RepeatsAre(c: nat)
    ensures RepeatBits(c) == RepeatExtra(c) && if c >= 16 then RepeatBase(c) == RepeatLeast(c) else RepeatExtra(c) == 0
  {
  }

  lemma OrderIs(i: nat)
    requires i < 19
    ensures |ORDER| == 19 && Border(i) == ORDER[i]
  {
  }
}
