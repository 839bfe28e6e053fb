/** `huft_build`: from a list of code lengths to linked lookup tables. */
module HuftBuild {
  import opened Bits
  import opened Canonical
  import opened HuftTables
  import opened HuftLabels
  import opened HuftSteps
  import opened HuftSpace

  const BMAX: nat := MAX_BITS

  /** The size of the table space. */
  const MANY: nat := 1440

  datatype Verdict = Ok | BufError | DataError

  // ----- Counting the lengths

  method CountLengths(b: Lengths) returns (c: seq<nat>)
    requires ValidLengths(b)
    ensures |c| == BMAX + 1
    ensures forall k :: 0 <= k <= BMAX ==> c[k] == Count(b, k)
  {
    c := seq(BMAX + 1, _ => 0);
    var i := 0;
    while i < |b|
      invariant 0 <= i <= |b| && |c| == BMAX + 1
      invariant forall k :: 0 <= k <= BMAX ==> c[k] == Count(b[..i], k)
    {
      forall k | 0 <= k <= BMAX
        ensures Count(b[..i + 1], k) == Count(b[..i], k) + (if b[i] == k then 1 else 0)
      {
        CountStep(b, i, k);
      }
      c := c[b[i] := c[b[i]] + 1];
      i := i + 1;
    }
    assert b[..|b|] == b;
  }

  lemma AllZero(b: Lengths)
    ensures Count(b, 0) == |b| <==> MaxLen(b) == 0
  {
    if |b| > 0 { AllZero(b[..|b| - 1]); }
  }

  /** The least length used, searching from `k` up. */
  function MinLenFrom(b: Lengths, k: nat): (r: nat)
    requires k <= MaxLen(b)
    ensures k <= r <= MaxLen(b)
    decreases MaxLen(b) - k
  {
    if k == MaxLen(b) || Count(b, k) > 0 then k else MinLenFrom(b, k + 1)
  }

  /** The lookup width: `m` brought between the least and the greatest length. */
  function Width(b: Lengths, m: nat): (l: nat)
    requires MaxLen(b) > 0
    ensures 1 <= l <= MaxLen(b)
    ensures m >= MaxLen(b) ==> l == MaxLen(b)
    ensures m <= MaxLen(b) ==> l >= m
  {
    if m < MinLenFrom(b, 1) then MinLenFrom(b, 1) else if m > MaxLen(b) then MaxLen(b) else m
  }

  lemma MinLenIs(b: Lengths, k: nat, j: nat)
    requires k <= j <= MaxLen(b) && Count(b, j) > 0
    requires forall t :: k <= t < j ==> Count(b, t) == 0
    ensures MinLenFrom(b, k) == j
    decreases j - k
  {
    hide MaxLen, Count;
    if k < j { MinLenIs(b, k + 1, j); }
  }

  /** The least and greatest length used, and the lookup width `m` brought between them. */
  method LengthBounds(ghost b: Lengths, c: seq<nat>, m: nat) returns (j: nat, g: nat, l: nat)
    requires ValidLengths(b) && MaxLen(b) > 0
    requires |c| == BMAX + 1 && forall k :: 0 <= k <= BMAX ==> c[k] == Count(b, k)
    ensures g == MaxLen(b) && 1 <= j <= g <= BMAX
    ensures forall k :: 1 <= k < j ==> c[k] == 0
    ensures c[j] > 0
    ensures l == Width(b, m) && j <= l <= g
  {
    hide MaxLen, Count;
    assert MaxLen(b) <= BMAX by { KraftAtMax(b); }
    CountAtMax(b);
    l := m;
    j := 1;
    while j <= BMAX && c[j] == 0
      invariant 1 <= j <= MaxLen(b)
      invariant forall k :: 1 <= k < j ==> c[k] == 0
    {
      j := j + 1;
    }
    MinLenIs(b, 1, j);
    if l < j { l := j; }
    g := BMAX;
    while g > 0 && c[g] == 0
      invariant MaxLen(b) <= g <= BMAX
    {
      g := g - 1;
    }
    if g > MaxLen(b) { CountAboveMax(b, g); }
    if l > g { l := g; }
  }

  lemma EndSkip(b: Lengths, g: nat, k: nat)
    requires k <= g
    requires forall t :: 1 <= t <= k ==> Count(b, t) == 0
    ensures End(b, g, k) == 0
  {
    if k > 0 { EndSkip(b, g, k - 1); ShlZero(g - k); }
  }

  /** How many codes of the longest length are missing; negative when there are too many. */
  method MissingCodes(ghost b: Lengths, c: seq<nat>, j0: nat, g: nat) returns (y: int)
    requires ValidLengths(b) && g == MaxLen(b) && 1 <= j0 <= g <= BMAX
    requires |c| == BMAX + 1 && forall k :: 0 <= k <= BMAX ==> c[k] == Count(b, k)
    requires forall k :: 1 <= k < j0 ==> c[k] == 0
    ensures y < 0 <==> OverSubscribed(b)
    ensures y >= 0 ==> y == Pow2(g) - End(b, g, g)
  {
    hide Shl, MaxLen, Count, OverSubscribed;
    KraftAtMax(b);
    var j := j0;
    y := Pow2(j);
    Pow2Add(j, g - j);
    EndSkip(b, g, j - 1);
    while j < g
      invariant j0 <= j <= g
      invariant Shl(y, g - j) == Pow2(g) - End(b, g, j - 1)
      invariant y >= 0
    {
      ShlAdd(y - c[j], c[j], g - j);
      y := y - c[j];
      if y < 0 {
        NegativeShl(y, g - j);
        EndMono(b, g, j, g);
        return;
      }
      ShlShl(y, 1, g - j - 1);
      DoubleIsShl(y);
      y := 2 * y;
      j := j + 1;
    }
    ShlZeroBits(y);
    ShlZeroBits(c[g]);
    y := y - c[g];
  }

  lemma NegativeShl(y: int, n: nat)
    requires y < 0
    ensures Shl(y, n) < 0
  {
  }

  lemma DoubleIsShl(y: int)
    ensures Shl(y, 1) == 2 * y
  {
  }

  lemma ShlZeroBits(y: int)
    ensures Shl(y, 0) == y
  {
  }

  // ----- Sorting the symbols by length

  /** The number of symbols with length from 1 to `k - 1`. */
  function Offset(b: Lengths, k: nat): nat {
    if k <= 1 then 0 else Offset(b, k - 1) + Count(b, k - 1)
  }

  lemma OffsetMono(b: Lengths, j: nat, k: nat)
    requires 1 <= j < k
    ensures Offset(b, j) + Count(b, j) <= Offset(b, k)
  {
    if j + 1 < k { OffsetMono(b, j, k - 1); }
  }

  method Offsets(ghost b: Lengths, c: seq<nat>, g: nat) returns (x: seq<nat>)
    requires 1 <= g <= BMAX && |c| == BMAX + 1
    requires forall k :: 1 <= k < g ==> c[k] == Count(b, k)
    ensures |x| == BMAX + 1
    ensures forall k :: 1 <= k <= g ==> x[k] == Offset(b, k)
  {
    x := seq(BMAX + 1, _ => 0);
    var j := 0;
    var k := 1;
    while k < g
      invariant 1 <= k <= g && |x| == BMAX + 1
      invariant j == Offset(b, k)
      invariant forall t :: 1 <= t <= k ==> x[t] == Offset(b, t)
    {
      j := j + c[k];
      x := x[k + 1 := j];
      k := k + 1;
    }
  }

  /** Every symbol before `i` with a code is filed under its length and rank. */
  ghost predicate Filed(b: Lengths, v: seq<nat>, i: nat)
    requires i <= |b|
  {
    forall s :: 0 <= s < i && b[s] > 0 ==>
      Offset(b, b[s]) + Rank(b, s) < |v| && v[Offset(b, b[s]) + Rank(b, s)] == s
  }

  lemma SlotsDistinct(b: Lengths, s: nat, t: nat)
    requires s < |b| && t < |b| && s != t && b[s] > 0 && b[t] > 0
    ensures Offset(b, b[s]) + Rank(b, s) != Offset(b, b[t]) + Rank(b, t)
  {
    RankBound(b, s);
    RankBound(b, t);
    if b[s] < b[t] { OffsetMono(b, b[s], b[t]); }
    else if b[t] < b[s] { OffsetMono(b, b[t], b[s]); }
    else if Rank(b, s) == Rank(b, t) { RankInjective(b, s, t); }
  }

  lemma OffsetTotal(b: Lengths, k: nat)
    ensures Offset(b, k) + Count(b, 0) <= |b|
    ensures k > 0 ==> Offset(b, k) + Count(b, k) + Count(b, 0) <= |b|
  {
    if |b| == 0 {
      OffsetEmpty(b, k);
    } else {
      var n := |b| - 1;
      OffsetTotal(b[..n], k);
      OffsetStep(b, k);
    }
  }

  lemma OffsetEmpty(b: Lengths, k: nat)
    requires |b| == 0
    ensures Offset(b, k) == 0
  {
  }

  lemma OffsetStep(b: Lengths, k: nat)
    requires |b| > 0
    ensures Offset(b, k) == Offset(b[..|b| - 1], k)
                            + (if 1 <= b[|b| - 1] < k then 1 else 0)
  {
  }

  /** Make a table of symbols in order of code length. */
  method SortValues(b: Lengths, x0: seq<nat>, ghost g: nat, v: array<nat>) returns (x: seq<nat>)
    requires ValidLengths(b) && g == MaxLen(b) && 1 <= g <= BMAX
    requires |x0| == BMAX + 1 && forall k :: 1 <= k <= g ==> x0[k] == Offset(b, k)
    requires v.Length >= |b|
    modifies v
    ensures |x| == BMAX + 1 && x[g] == Offset(b, g) + Count(b, g)
    ensures Filed(b, v[..], |b|)
  {
    hide Count, Offset, MaxLen;
    x := x0;
    var i := 0;
    forall k | 1 <= k <= g ensures Count(b[..0], k) == 0 { CountEmpty(b[..0], k); }
    while i < |b|
      invariant 0 <= i <= |b| && |x| == BMAX + 1
      invariant forall k :: 1 <= k <= g ==> x[k] == Offset(b, k) + Count(b[..i], k)
      invariant Filed(b, v[..], i)
    {
      var j := b[i];
      assert j <= g;
      forall k | 1 <= k <= g
        ensures Count(b[..i + 1], k) == Count(b[..i], k) + (if j == k then 1 else 0)
      {
        CountStep(b, i, k);
      }
      if j != 0 {
        forall s | 0 <= s < i && b[s] > 0
          ensures Offset(b, b[s]) + Rank(b, s) != x[j]
        {
          SlotsDistinct(b, s, i);
        }
        RankBound(b, i);
        OffsetTotal(b, j);
        v[x[j]] := i;
        x := x[j := x[j] + 1];
      }
      i := i + 1;
    }
    assert b[..|b|] == b;
  }

  lemma CountEmpty(b: Lengths, k: nat)
    requires |b| == 0
    ensures Count(b, k) == 0
  {
  }

  // ----- The size of a new table

  /** Where the codes of length at most `k` end once the dummy codes of length `g` that fill
    * up the code space are counted as well. */
  ghost function FilledEnd(b: Lengths, g: nat, k: nat): nat
    requires k <= g
  {
    if k == g then Pow2(g) else End(b, g, k)
  }

  /** The counts after the dummy codes were added. */
  ghost predicate Filled(b: Lengths, c: seq<nat>, g: nat) {
    && |c| == BMAX + 1 && 0 < g <= BMAX && g == MaxLen(b)
    && (forall k :: 1 <= k < g ==> c[k] == Count(b, k))
    && c[g] >= Count(b, g)
    && End(b, g, g - 1) + c[g] == Pow2(g)
  }

  lemma FilledStep(b: Lengths, c: seq<nat>, g: nat, k: nat)
    requires Filled(b, c, g) && 1 <= k <= g
    ensures FilledEnd(b, g, k) == FilledEnd(b, g, k - 1) + Shl(c[k], g - k)
  {
    if k == g { ShlZeroBits(c[g]); }
  }

  lemma LenAtFilled(b: Lengths, c: seq<nat>, g: nat, k: nat, v: nat)
    requires Filled(b, c, g) && 1 <= k <= g
    requires FilledEnd(b, g, k - 1) <= v
    ensures v < FilledEnd(b, g, k) ==> LenAt(b, v) == k
    ensures LenAt(b, v) >= k
  {
    hide Shl, MaxLen, Count;
    if v < FilledEnd(b, g, k) { LenAtUnique(b, v, k); }
    if LenAt(b, v) < k { EndMono(b, g, LenAt(b, v), k - 1); }
  }

  /** The interval of a prefix stays within the code space. */
  lemma PrefixFits(g: nat, w: nat, i: nat)
    requires w <= g && i < Pow2(w)
    ensures Rev(g, i) + Pow2(g - w) <= Pow2(g)
  {
    hide Shl, Rev, Shr, Low;
    LowSmall(i, w);
    RevSplit(w, g - w, i);
    RevZero(g - w);
    RevBound(w, i);
    ShlMono(Rev(w, i), Pow2(w), g - w);
    Pow2Add(w, g - w);
  }

  /** The patterns left over when the codes of length `k` are taken from twice the `f` patterns
    * that shorter codes leave of the code space up to `E`. */
  lemma TryLonger(b: Lengths, c: seq<nat>, g: nat, k: nat, f: nat, E: nat)
    requires Filled(b, c, g) && 1 <= k <= g
    requires Shl(f, g - (k - 1)) == E - FilledEnd(b, g, k - 1)
    ensures Shl(2 * f - c[k], g - k) == E - FilledEnd(b, g, k)
    ensures 2 * f <= c[k] <==> E <= FilledEnd(b, g, k)
  {
    hide Shl, Count, End, MaxLen, FilledEnd;
    ShlShl(f, 1, g - k);
    DoubleIsShl(f);
    FilledStep(b, c, g, k);
    ShlAdd(2 * f - c[k], c[k], g - k);
    ShlZero(g - k);
    if 2 * f <= c[k] { ShlMono(2 * f - c[k], 0, g - k); } else { ShlMono(1, 2 * f - c[k], g - k); }
  }

  /** Try tables of `k - w` bits and more, until one holds all the codes whose prefix it is. */
  method TableSize(c: seq<nat>, k: nat, g: nat, w: nat, l: nat, a: nat, ghost tree: Tree, ghost i: nat)
    returns (j: nat)
    requires Filled(tree.lens, c, g) && tree.l == l > 0
    requires w < k <= g && i < Pow2(w)
    requires LenAt(tree.lens, Pos(tree.lens, i)) == k
    requires Pos(tree.lens, i) + Shl(a + 1, g - k) == FilledEnd(tree.lens, g, k)
    ensures j == TableBits(tree, w, i)
  {
    hide Shl, Rev, MaxLen, LenAt, End, Count;
    ghost var b, P := tree.lens, Pos(tree.lens, i);
    ghost var last: nat := P + Pow2(g - w) - 1;
    LenAtMono(b, P, last);
    PrefixFits(g, w, i);
    var z := if g - w > l then l else g - w;
    j := k - w;
    var f: int := Pow2(j);
    Pow2Add(j, g - k);
    ShlAdd(f - (a + 1), a + 1, g - k);
    // (f - (a+1)) * 2^(g-k) is the code space the codes of k bits leave in the table
    assert Shl(f - (a + 1), g - k) == last + 1 - FilledEnd(b, g, k);
    if f > a + 1 {
      f := f - (a + 1);
      ShlMono(1, f, g - k);
      if j < z {
        j := j + 1;
        while j < z
          invariant k - w < j <= z && f > 0
          invariant Shl(f, g - (w + j - 1)) == last + 1 - FilledEnd(b, g, w + j - 1)
          invariant last >= FilledEnd(b, g, w + j - 1)
        {
          TryLonger(b, c, g, w + j, f, last + 1);
          f := 2 * f;
          if f <= c[w + j] {
            break;
          }
          f := f - c[w + j];
          j := j + 1;
        }
        LenAtFilled(b, c, g, w + j, last);
      } else {
        LenAtFilled(b, c, g, k + 1, last);
      }
    } else {
      ShlMono(f - (a + 1), 0, g - k);
      ShlZero(g - k);
      LenAtFilled(b, c, g, k, last);
    }
  }

  // ----- Stepping through the codes

  /** Add one to the `k`-bit code `i`, whose most significant bit is bit 0. */
  method BackwardIncrement(k: nat, i0: nat) returns (i: nat)
    requires k > 0 && i0 < Pow2(k)
    ensures i < Pow2(k)
    ensures Rev(k, i0) + 1 < Pow2(k) ==> Rev(k, i) == Rev(k, i0) + 1
    ensures Rev(k, i0) + 1 == Pow2(k) ==> i == 0
  {
    hide Shl, Rev, Low, Shr;
    i := i0;
    var j: int := k - 1;
    assert Shl(Rev(k, i), 0) == Rev(k, i) by { ShlZeroBits(Rev(k, i)); }
    Pow2Zero();
    while j >= 0 && Shr(i, j) % 2 == 1
      invariant -1 <= j < k && i < Pow2(j + 1)
      invariant Rev(k, i0) == Shl(Rev(j + 1, i), k - (j + 1)) + Pow2(k - (j + 1)) - 1
    {
      var lo := Low(i, j);
      TopBit(i, j);
      RevLow(j, j, i);
      RevTop(j, i);
      ShlAdd(2 * Rev(j, i), 1, k - (j + 1));
      DoubleIsShl(Rev(j, i));
      ShlShl(Rev(j, i), 1, k - (j + 1));
      ShlShl(1, 1, k - (j + 1));
      DoubleIsShl(1);
      ShlShlSwap(k - (j + 1));
      LowBound(i, j);
      i := i - Pow2(j);
      RevLow(j, j, i);
      LowSmall(i, j);
      j := j - 1;
    }
    if j >= 0 {
      ghost var n := k - (j + 1);
      TopBit(i, j);
      LowBound(i, j);
      LowSmall(i, j);
      RevTop(j, i);
      ghost var old_i := i;
      i := i + Pow2(j);
      Unsplit(old_i, 1, j);
      RevTop(j, i);
      RevLow(j, j, i);
      Pow2Mono(j, j + 1);
      Pow2Mono(j + 1, k);
      LowSmall(i, j + 1);
      RevSplit(j + 1, n, i);
      RevZero(n);
      RevBound(k, i);
      ShlAdd(Rev(j + 1, old_i), 1, n);
    } else {
      ShlZero(k);
      RevZero(0);
      Pow2Zero();
      assert Rev(0, i) == 0 by { RevBound(0, i); }
    }
  }

  lemma TopBit(i: nat, j: nat)
    requires i < Pow2(j + 1)
    ensures Shr(i, j) % 2 == 1 ==> i == Low(i, j) + Pow2(j)
    ensures Shr(i, j) % 2 == 0 ==> i == Low(i, j)
  {
    hide Shl, Low, Shr;
    Split(i, j);
    LowSmall(i, j + 1);
    LowSplit(i, j, 1);
    OneBit(Shr(i, j));
    ShlZero(j);
  }

  lemma OneBit(x: nat)
    ensures Low(x, 1) == x % 2
  {
  }

  lemma ShlShlSwap(n: nat)
    ensures Pow2(n + 1) == 2 * Pow2(n)
  {
  }

  lemma NextMultiple(j: nat, n: nat)
    ensures Low(j + Pow2(n), n) == Low(j, n)
    ensures forall d :: j < d < j + Pow2(n) ==> Low(d, n) != Low(j, n)
  {
    hide Shl, Low, Shr;
    var c, h := Low(j, n), Shr(j, n);
    Split(j, n);
    LowBound(j, n);
    ShlAdd(h, 1, n);
    Unsplit(c, h + 1, n);
    forall d | j < d < j + Pow2(n)
      ensures Low(d, n) != c
    {
      if c + (d - j) < Pow2(n) {
        Unsplit(c + (d - j), h, n);
      } else {
        Unsplit(c + (d - j) - Pow2(n), h + 1, n);
      }
    }
  }

  /** Write `r` to all slots of the table that the code is a prefix of. */
  method Fill(hp: array<Huft>, q: nat, z: nat, n: nat, c: nat, r: Huft)
    requires q + z <= hp.Length && c < Pow2(n)
    modifies hp
    ensures Written(old(hp[..]), hp[..], q, z, n, c, r)
  {
    hide Shl, Low;
    var j := c;
    LowSmall(c, n);
    forall d | 0 <= d < c ensures Low(d, n) != c { LowSmall(d, n); }
    while j < z
      invariant Low(j, n) == c
      invariant forall a :: 0 <= a < hp.Length ==>
        hp[a] == if q <= a < q + z && a < q + j && Low(a - q, n) == c then r else old(hp[a])
    {
      NextMultiple(j, n);
      hp[q + j] := r;
      j := j + Pow2(n);
    }
  }

  /** Make tables up to the level of a `k`-bit code.  Fails when table space runs out. */
  method MakeTables(hp: array<Huft>, c: seq<nat>, k: nat, g: nat, l: nat, a: nat, i: nat,
                    st0: Stack, q0: nat, z0: nat, hn0: nat, r0: Huft,
                    ghost own0: seq<Label>, ghost base: nat, ghost tree: Tree, ghost T0: seq<Huft>)
    returns (ok: bool, st: Stack, q: nat, z: nat, hn: nat, r: Huft, ghost own: seq<Label>)
    requires hp.Length == MANY && tree.l == l
    requires Ready(hp[..], own0, base, tree, st0, k, i, q0, z0)
    requires |own0| == hn0 && base <= hn0
    requires Filled(tree.lens, c, g) && 1 <= k
    requires LenAt(tree.lens, Pos(tree.lens, i)) == k
    requires Pos(tree.lens, i) + Shl(a + 1, g - k) == FilledEnd(tree.lens, g, k)
    requires st0.h >= 0 ==> st0.w >= 0 && i >= Pow2(st0.w)
    requires Untouched(T0, hp[..], own0, base, tree)
    modifies hp
    ensures ok ==> Untouched(T0, hp[..], own, base, tree)
    ensures hn0 <= hn <= MANY
    ensures forall d :: 0 <= d < hp.Length && !(base <= d < hn) ==> hp[d] == old(hp[d])
    ensures ok ==> Ready(hp[..], own, base, tree, st, k, i, q, z) && |own| == hn
    ensures ok ==> 0 <= st.w && k <= st.w + l
    ensures ok ==> hn == hn0 + LevelSpace(tree, i, k, FirstLevel(tree, i, 0))
    ensures !ok ==> hn0 + LevelSpace(tree, i, k, FirstLevel(tree, i, 0)) > MANY
    ensures g == 1 ==> r == r0
  {
    hide Shl, Rev, Low, MaxLen, LenAt, TableBits, DoneBelow, Linked, Sorted, FilledEnd, Step, Untouched;
    st, q, z, hn, r, own := st0, q0, z0, hn0, r0, own0;
    ghost var total := LevelSpace(tree, i, k, FirstLevel(tree, i, 0));
    FirstPush(hp[..], own, base, tree, st, k, i, q, z);
    while k > st.w + l
      invariant Ready(hp[..], own, base, tree, st, k, i, q, z)
      invariant |own| == hn && hn0 <= hn <= MANY
      invariant forall d :: 0 <= d < hp.Length && !(base <= d < hn) ==> hp[d] == old(hp[d])
      invariant g == 1 ==> r == r0
      invariant Untouched(T0, hp[..], own, base, tree)
      invariant hn + LevelSpace(tree, i, k, st.w + l) == hn0 + total
      decreases k - st.w
    {
      var j := TableSize(c, k, g, st.w + l, l, a, tree, i);
      if hn + Pow2(j) > MANY {
        return false, st, q, z, hn, r, own;
      }
      st, q, z, hn, r, own := PushTable(hp, k, g, l, i, j, st, q, z, hn, r, own, base, tree, T0);
    }
    ok := true;
  }

  /** Make one more table, of `j` bits, and link it to the one before. */
  method PushTable(hp: array<Huft>, k: nat, g: nat, l: nat, i: nat, j: nat,
                   st0: Stack, q0: nat, z0: nat, hn0: nat, r0: Huft, ghost own0: seq<Label>, ghost base: nat, ghost tree: Tree,
                   ghost T0: seq<Huft>)
    returns (st: Stack, q: nat, z: nat, hn: nat, r: Huft, ghost own: seq<Label>)
    requires hp.Length == MANY && tree.l == l && g == MaxLen(tree.lens)
    requires Ready(hp[..], own0, base, tree, st0, k, i, q0, z0) && |own0| == hn0 && base <= hn0
    requires 1 <= k && LenAt(tree.lens, Pos(tree.lens, i)) == k && k > st0.w + l >= 0
    requires st0.w + l < MaxLen(tree.lens) && j == TableBits(tree, st0.w + l, i) && hn0 + Pow2(j) <= MANY
    requires Untouched(T0, hp[..], own0, base, tree)
    modifies hp
    ensures Untouched(T0, hp[..], own, base, tree)
    ensures hn == hn0 + Pow2(j) && st.w == st0.w + l
    ensures forall d :: 0 <= d < hp.Length && !(base <= d < hn) ==> hp[d] == old(hp[d])
    ensures Ready(hp[..], own, base, tree, st, k, i, q, z) && |own| == hn
    ensures g == 1 ==> r == r0
  {
    hide Shl, Rev, Low, MaxLen, LenAt, TableBits, DoneBelow, Linked, Sorted, FilledEnd, Step, Untouched;
    st, own, r := st0, own0, r0;
    ghost var T := hp[..];
    if st.h >= 0 {
      DoneLabelled(T, own, base, tree, Pos(tree.lens, i));
      PushSlot(own, base, tree, st, k, i);
      var jj := Shr(i, st.w);
      r := Huft(j, l, hn0 - st.u[st.h] - jj);
      hp[st.u[st.h] + jj] := r;
    }
    ghost var own' := own + NewTable(hn0, j, st.w + l, i);
    var st' := Stack(st.h + 1, st.w + l, st.u[st.h + 1 := hn0], st.x[st.h + 1 := i]);
    PushReady(T, hp[..], own, own', base, tree, st, st', k, i, q0, z0, j);
    PushUntouched(T0, T, hp[..], own, own', base, tree, st, st', k, i, q0, z0, j);
    q, z, hn := hn0, Pow2(j), hn0 + Pow2(j);
    st, own := st', own';
  }

  /** The levels still to be pushed are those from the first level of the prefix on. */
  lemma FirstPush(T: seq<Huft>, own: seq<Label>, base: nat, tree: Tree, st: Stack, k: nat, i: nat, q: nat, z: nat)
    requires Ready(T, own, base, tree, st, k, i, q, z)
    requires st.h >= 0 ==> st.w >= 0 && i >= Pow2(st.w)
    ensures 0 <= st.w + tree.l
    ensures LevelSpace(tree, i, k, FirstLevel(tree, i, 0)) == LevelSpace(tree, i, k, st.w + tree.l)
  {
    hide Shl, Low, MaxLen, TableBits, LenAt, EntryOK;
    if st.h >= 0 {
      assert LabelOK(own, base, tree, st.u[st.h]);
    }
    FirstLevelSkip(tree, i, st.w + tree.l);
  }


  lemma DoneLabelled(T: seq<Huft>, own: seq<Label>, base: nat, tree: Tree, P: nat)
    requires |own| <= |T| && DoneBelow(T, own, base, tree, P)
    ensures Labelled(own, base, tree)
  {
  }

  /** Backup over finished tables.  After the last code (`last`) there is no next code and the
    * search ends at the outermost table. */
  method Backup(st0: Stack, i': nat, l: nat, ghost own: seq<Label>, ghost base: nat, ghost tree: Tree,
                ghost i: nat, ghost k: nat, ghost last: bool)
    returns (st: Stack)
    requires tree.l == l > 0 && Labelled(own, base, tree)
    requires Shape(own, base, tree, st0, i) && st0.h >= 0 && 0 <= st0.w < k <= MaxLen(tree.lens)
    requires i < Pow2(k) && i' < Pow2(k)
    requires !last ==> Pos(tree.lens, i') == Pos(tree.lens, i) + Pow2(MaxLen(tree.lens) - k)
    requires !last ==> Sorted(own, base, tree, st0, Pos(tree.lens, i'))
    ensures !last ==>
      && Shape(own, base, tree, st, i) && st.h >= 0 && 0 <= st.w
      && Low(i', st.w) == Low(i, st.w)
      && Sorted(own, base, tree, st, Pos(tree.lens, i'))
      && (st == st0 || (st.w + l <= st0.w && i' < Pow2(st.w + l)))
  {
    hide Shl, Rev, Low, MaxLen, TableBits, Sorted;
    st := st0;
    while Low(i', st.w) != st.x[st.h]
      invariant Shape(own, base, tree, st, i) && st.h >= 0 && 0 <= st.w <= st0.w
      invariant !last ==> Sorted(own, base, tree, st, Pos(tree.lens, i'))
      invariant !last ==> st == st0 || (st.w + l <= st0.w && i' < Pow2(st.w + l))
      decreases st.h
    {
      assert Level(own, base, st, i, st.h);
      LowNothing(i);
      LowNothing(i');
      PopShape(own, base, tree, st, i);
      if !last {
        PopFacts(tree.lens, i, i', k, st.w);
        PopSorted(own, base, tree, st, i, Pos(tree.lens, i'));
      }
      st := Stack(st.h - 1, st.w - l, st.u, st.x);
    }
    assert Level(own, base, st, i, st.h);
  }

  lemma LowNothing(x: nat)
    ensures Low(x, 0) == 0
  {
  }

  /** The entry for the next code: out of values, a value standing for itself, or a value
    * looked up in the alphabet's lists. */
  function NextEntry(r: Huft, bits: nat, al: Alphabet, v: seq<nat>, p: nat, n: nat): Huft
    requires n <= |v| && (p < n ==> InAlphabet(al, v[p]))
  {
    if p >= n then Huft(EXOP_INVALID, bits, r.base)
    else if v[p] < al.simple then Huft(if v[p] < 256 then 0 else EXOP_END_OF_BLOCK, bits, v[p])
    else Huft((al.extras[v[p] - al.simple] + 16 + 64) % 256, bits, al.bases[v[p] - al.simple])
  }

  /** The symbols in order of code: `v` lists the `n` symbols with a code by length and rank. */
  ghost predicate Ordered(b: Lengths, v: seq<nat>, n: nat, g: nat) {
    && 0 < g == MaxLen(b) && n == Offset(b, g) + Count(b, g) && n <= |v|
    && forall k, r :: 1 <= k <= g && 0 <= r < Count(b, k) ==> InOrder(b, v, n, k, r)
  }

  ghost predicate InOrder(b: Lengths, v: seq<nat>, n: nat, k: nat, r: nat)
    requires r < Count(b, k) && n <= |v|
  {
    Offset(b, k) + r < n && v[Offset(b, k) + r] == Nth(b, k, r)
  }

  lemma FiledOrdered(b: Lengths, v: seq<nat>, g: nat)
    requires 0 < g == MaxLen(b) && |v| >= |b| && Filed(b, v, |b|)
    ensures Ordered(b, v, Offset(b, g) + Count(b, g), g)
  {
    hide MaxLen, Count, Offset, Nth;
    var n := Offset(b, g) + Count(b, g);
    OffsetTotal(b, g);
    forall k, r {:trigger InOrder(b, v, n, k, r)} | 1 <= k <= g && 0 <= r < Count(b, k)
      ensures InOrder(b, v, n, k, r)
    {
      FiledAt(b, v, g, k, r);
    }
  }

  lemma FiledAt(b: Lengths, v: seq<nat>, g: nat, k: nat, r: nat)
    requires 0 < g == MaxLen(b) && |v| >= |b| && Filed(b, v, |b|) && 1 <= k <= g && r < Count(b, k)
    ensures Offset(b, g) + Count(b, g) <= |v| && InOrder(b, v, Offset(b, g) + Count(b, g), k, r)
  {
    hide MaxLen, Count, Offset, Nth;
    OffsetTotal(b, g);
    var s := Nth(b, k, r);
    assert Rank(b, s) == r;
    if k < g { OffsetMono(b, k, g); }
  }

  /** The next entry is right for the `r`-th code of length `k`. */
  lemma NextEntryOK(tree: Tree, c: seq<nat>, v: seq<nat>, n: nat, g: nat, k: nat, rank: nat,
                    p: nat, w: nat, e: Huft, P: nat)
    requires Filled(tree.lens, c, g) && Ordered(tree.lens, v, n, g)
    requires 1 <= k <= g && w < k && rank < c[k]
    requires forall s :: 0 <= s < |tree.lens| ==> InAlphabet(tree.alphabet, s)
    requires P == End(tree.lens, g, k - 1) + Shl(rank, g - k) && LenAt(tree.lens, P) == k
    requires p == (if Offset(tree.lens, k) + rank < n then Offset(tree.lens, k) + rank else n)
    requires LoneCode(tree.lens) && p > 0 ==> LoneBase(tree, e.base)
    ensures n <= |v| && (p < n ==> InAlphabet(tree.alphabet, v[p]))
    ensures LeafOK(NextEntry(e, k - w, tree.alphabet, v, p, n), tree, w, P)
    ensures LoneCode(tree.lens) ==> LoneBase(tree, NextEntry(e, k - w, tree.alphabet, v, p, n).base)
  {
    hide Shl, Rev, Low, Shr, MaxLen, LenAt, End, Count, Offset;
    var b := tree.lens;
    ShrShlExact(rank, g - k);
    assert RankAt(b, P) == rank;
    CountAtMax(b);
    if rank < Count(b, k) {
      assert InOrder(b, v, n, k, rank);
    } else {
      assert k == g;
      assert p == n;
      assert InOrder(b, v, n, g, 0);
    }
  }

  lemma ShrShlExact(r: nat, n: nat)
    ensures Shl(r, n) >= 0 && Shr(Shl(r, n), n) == r
  {
    Unsplit(0, r, n);
  }

  /** The first table has `l` bits. */
  lemma RootBits(tree: Tree, c: seq<nat>, i: nat)
    requires Filled(tree.lens, c, MaxLen(tree.lens)) && i < Pow2(0)
    ensures LenAt(tree.lens, 0) <= tree.l <= MaxLen(tree.lens) ==> TableBits(tree, 0, i) == tree.l
  {
    hide Low, MaxLen, LenAt, Count;
    var g := MaxLen(tree.lens);
    assert i == 0;
    RevZero(g);
    CountAtMax(tree.lens);
    LenAtUnique(tree.lens, Pow2(g) - 1, g);
  }

  /** The current table lies within the labelled space. */
  lemma CurrentTable(T: seq<Huft>, own: seq<Label>, base: nat, tree: Tree, st: Stack,
                     k: nat, i: nat, q: nat, z: nat)
    requires Ready(T, own, base, tree, st, k, i, q, z) && k <= st.w + tree.l
    ensures 0 <= st.w && base <= q && q + z <= |own|
    ensures Shr(i, st.w) < Pow2(k - st.w)
  {
    hide Shl, Shr, Rev, Low, MaxLen, TableBits, EntryOK;
    assert LabelOK(own, base, tree, q);
    LowSmall(i, k);
    LowSplit(i, st.w, k - st.w);
    LowBound(Shr(i, st.w), k - st.w);
  }

  /** The next code follows the interval of the previous one. */
  lemma NextPos(lens: Lengths, k: nat, i: nat, i': nat)
    requires 0 < k <= MaxLen(lens) && i < Pow2(k) && i' < Pow2(k)
    requires Rev(k, i) + 1 < Pow2(k) ==> Rev(k, i') == Rev(k, i) + 1
    requires Rev(k, i) + 1 == Pow2(k) ==> i' == 0
    ensures var g := MaxLen(lens);
            && Pos(lens, i) + Pow2(g - k) <= Pow2(g)
            && (Pos(lens, i) + Pow2(g - k) < Pow2(g) ==> Pos(lens, i') == Pos(lens, i) + Pow2(g - k))
  {
    hide Shl, Shr, Rev, Low, MaxLen;
    var g := MaxLen(lens);
    PrefixFits(g, k, i);
    LowSmall(i, k);
    LowSmall(i', k);
    RevSplit(k, g - k, i);
    RevSplit(k, g - k, i');
    RevZero(g - k);
    RevBound(k, i);
    ShlAdd(Rev(k, i), 1, g - k);
    Pow2Add(k, g - k);
  }

  lemma SortedMono(own: seq<Label>, base: nat, tree: Tree, st: Stack, P: nat, P': nat)
    requires Sorted(own, base, tree, st, P) && P <= P'
    ensures Sorted(own, base, tree, st, P')
  {
  }

  /** After the entries of code `i` are written and the stack is backed up, everything is ready
    * for the next code. */
  lemma NextReady(T: seq<Huft>, T': seq<Huft>, own: seq<Label>, base: nat, tree: Tree, st: Stack, st': Stack,
                  k: nat, i: nat, i': nat, q: nat, z: nat)
    requires Ready(T, own, base, tree, st, k, i, q, z) && 0 <= st.w && k <= st.w + tree.l
    requires |T'| == |T| && i' < Pow2(k)
    requires Pos(tree.lens, i') > Pos(tree.lens, i)
    requires DoneBelow(T', own, base, tree, Pos(tree.lens, i'))
    requires Shape(own, base, tree, st', i) && st'.h >= 0 && 0 <= st'.w
    requires Low(i', st'.w) == Low(i, st'.w)
    requires Sorted(own, base, tree, st', Pos(tree.lens, i'))
    requires st' == st || (st'.w + tree.l <= st.w && i' < Pow2(st'.w + tree.l))
    ensures Ready(T', own, base, tree, st', k, i', q, z)
  {
    hide Shl, Shr, Rev, Low, MaxLen, TableBits, EntryOK, Pos, Sorted, LinkOK;
    hide DoneBelow;
    LinkedByDone(T', own, base, tree, st', i, Pos(tree.lens, i'));
    LinkedMoves(T', own, base, tree, st', i, i');
    assert Level(own, base, st', i', st'.h);
  }

  /** The links of the open tables do not depend on the code, as far as it has the same prefix. */
  lemma LinkedMoves(T: seq<Huft>, own: seq<Label>, base: nat, tree: Tree, st: Stack, i: nat, i': nat)
    requires |own| <= |T| && MaxLen(tree.lens) > 0 && tree.l > 0
    requires Shape(own, base, tree, st, i) && st.h >= 0 && st.w >= 0
    requires Linked(T, own, base, tree, st, i) && Low(i', st.w) == Low(i, st.w)
    ensures Shape(own, base, tree, st, i') && Linked(T, own, base, tree, st, i')
  {
    hide Low, MaxLen, LinkOK;
    ShapeMoves(own, base, tree, st, i, i');
    forall d | 0 <= d < st.h ensures Level(own, base, st, i', d) && LinkOK(T, own, tree, st, d) {
      assert Level(own, base, st, i, d);
      assert Step(own, base, tree, st, i', d);
    }
  }

  /** Set up the table entry for one code, fill it in, and go on to the next code. */
  method EnterCode(hp: array<Huft>, v: seq<nat>, n: nat, ghost c: seq<nat>, k: nat, ghost g: nat, l: nat,
                   ghost rank: nat, i: nat, st0: Stack, q: nat, z: nat, r0: Huft, p0: nat, al: Alphabet,
                   ghost own: seq<Label>, ghost base: nat, ghost tree: Tree, ghost T0: seq<Huft>)
    returns (i': nat, st: Stack, r: Huft, p: nat)
    requires tree.l == l && tree.alphabet == al && |own| <= hp.Length
    requires Ready(hp[..], own, base, tree, st0, k, i, q, z) && k <= st0.w + l
    requires Filled(tree.lens, c, g) && Ordered(tree.lens, v, n, g)
    requires 1 <= k <= g && rank < c[k]
    requires forall s :: 0 <= s < |tree.lens| ==> InAlphabet(al, s)
    requires LenAt(tree.lens, Pos(tree.lens, i)) == k
    requires Pos(tree.lens, i) == End(tree.lens, g, k - 1) + Shl(rank, g - k)
    requires p0 == (if Offset(tree.lens, k) + rank < n then Offset(tree.lens, k) + rank else n)
    requires LoneCode(tree.lens) && p0 > 0 ==> LoneBase(tree, r0.base)
    requires Untouched(T0, hp[..], own, base, tree)
    modifies hp
    ensures Untouched(T0, hp[..], own, base, tree)
    ensures forall d :: 0 <= d < hp.Length && !(base <= d < |own|) ==> hp[d] == old(hp[d])
    ensures p == (if p0 < n then p0 + 1 else p0)
    ensures LoneCode(tree.lens) ==> LoneBase(tree, r.base)
    ensures var P := Pos(tree.lens, i) + Pow2(g - k);
            && DoneBelow(hp[..], own, base, tree, P)
            && (P < Pow2(g) ==>
                  && Pos(tree.lens, i') == P
                  && Ready(hp[..], own, base, tree, st, k, i', q, z)
                  && (st.h >= 0 ==> st.w >= 0 && i' >= Pow2(st.w)))
  {
    hide Shl, Shr, Rev, Low, MaxLen, LenAt, TableBits, DoneBelow, Linked, Sorted, Shape, Count, End,
      Offset, LeafOK, LoneCode, LoneBase, Pos, Ordered, Filled, Untouched;
    ghost var T := hp[..];
    assert g == MaxLen(tree.lens) by { FilledMax(tree.lens, c, g); }
    CurrentTable(T, own, base, tree, st0, k, i, q, z);
    NextEntryOK(tree, c, v, n, g, k, rank, p0, st0.w, r0, Pos(tree.lens, i));
    r := NextEntry(r0, k - st0.w, al, v, p0, n);
    p := if p0 < n then p0 + 1 else p0;
    Fill(hp, q, z, k - st0.w, Shr(i, st0.w), r);
    WriteDone(T, hp[..], own, base, tree, st0, k, i, q, z, r);
    WriteUntouched(T0, T, hp[..], own, base, tree, st0, k, i, q, z, r);
    i' := BackwardIncrement(k, i);
    NextPos(tree.lens, k, i, i');
    ghost var last := Pos(tree.lens, i) + Pow2(g - k) == Pow2(g);
    DoneLabelled(T, own, base, tree, Pos(tree.lens, i));
    if !last { SortedMono(own, base, tree, st0, Pos(tree.lens, i), Pos(tree.lens, i')); }
    st := Backup(st0, i', l, own, base, tree, i, k, last);
    if !last {
      Entered(tree.lens, i, i', st.w);
      NextReady(T, hp[..], own, base, tree, st0, st, k, i, i', q, z);
    }
  }

  /** Later codes of a prefix are not the prefix itself. */
  lemma Entered(lens: Lengths, i: nat, i': nat, w: nat)
    requires w <= MaxLen(lens) && Low(i', w) == Low(i, w) && Pos(lens, i') > Pos(lens, i)
    ensures i' >= Pow2(w)
  {
    hide Shl, Shr, Rev, Low, MaxLen;
    PrefixPos(lens, i, w);
    if i' < Pow2(w) { LowSmall(i', w); }
  }

  lemma FilledMax(b: Lengths, c: seq<nat>, g: nat)
    requires Filled(b, c, g)
    ensures g == MaxLen(b) && |c| == BMAX + 1 && g <= BMAX
  {
  }

  /** The first table is the root of the tree. */
  ghost predicate Rooted(own: seq<Label>, base: nat, tree: Tree) {
    base < |own| ==> own[base].start == base && own[base].w == 0 && own[base].pat == 0
  }

  lemma ReadyRooted(T: seq<Huft>, own: seq<Label>, base: nat, tree: Tree, st: Stack, k: nat, i: nat, q: nat, z: nat)
    requires Ready(T, own, base, tree, st, k, i, q, z)
    ensures Rooted(own, base, tree)
  {
    hide Low;
    LowNothing(i);
  }

  lemma ReadyLonger(T: seq<Huft>, own: seq<Label>, base: nat, tree: Tree, st: Stack, k: nat, i: nat, q: nat, z: nat)
    requires Ready(T, own, base, tree, st, k, i, q, z) && k < MaxLen(tree.lens)
    ensures Ready(T, own, base, tree, st, k + 1, i, q, z)
  {
    hide Shl, Low, MaxLen, DoneBelow, Linked, Sorted;
    Pow2Mono(k, k + 1);
  }

  lemma ReadyInit(T: seq<Huft>, own: seq<Label>, base: nat, tree: Tree, u: seq<nat>, x: seq<nat>, k: nat)
    requires |own| == base <= |T| && 0 < tree.l <= MAX_BITS
    requires 1 <= k <= MaxLen(tree.lens) <= MAX_BITS
    requires |u| == MAX_BITS && |x| == MAX_BITS + 1 && x[0] == 0
    ensures Ready(T, own, base, tree, Stack(-1, 0 - tree.l, u, x), k, 0, 0, 0)
    ensures Pos(tree.lens, 0) == 0
  {
    hide Shl, Low, MaxLen;
    RevZero(MaxLen(tree.lens));
  }

  /** All tables done: the root is a complete table, just for shallow codes. */
  lemma AllDone(T: seq<Huft>, own: seq<Label>, base: nat, tree: Tree)
    requires |own| == |T| && base < |own|
    requires DoneBelow(T, own, base, tree, Pow2(MaxLen(tree.lens)))
    requires Rooted(own, base, tree)
    ensures IsTable(T, tree, base, TableBits(tree, 0, 0), 0, 0) <==> Shallow(tree)
  {
    hide Shl, Low, MaxLen, TableBits, LenAt, IsTable, IsLevel;
    assert LabelOK(own, base, tree, base);
    if Shallow(tree) {
      DoneIsTable(T, own, base, tree, base);
    } else {
      var w, i :| 0 <= w < MaxLen(tree.lens) && 0 <= i < Pow2(w) && IsLevel(tree.l, w)
                  && LenAt(tree.lens, Pos(tree.lens, i)) > w + tree.l;
      LowNothing(i);
      DeepFails(T, own, base, tree, base, w, i);
    }
  }

  /** For other codes some entry is read that was never written. */
  lemma AllDoneDeep(T0: seq<Huft>, T': seq<Huft>, T: seq<Huft>, own: seq<Label>, base: nat, tree: Tree)
    requires |own| == |T| && base < |own|
    requires DoneBelow(T, own, base, tree, Pow2(MaxLen(tree.lens)))
    requires Rooted(own, base, tree) && !Shallow(tree)
    requires T <= T' && Untouched(T0, T', own, base, tree)
    ensures ReadsUnwritten(T0, T, base, TableBits(tree, 0, 0))
  {
    hide Shl, Low, MaxLen, TableBits, LenAt, IsTable, IsLevel, ReadsUnwritten;
    assert LabelOK(own, base, tree, base);
    var w, i :| 0 <= w < MaxLen(tree.lens) && 0 <= i < Pow2(w) && IsLevel(tree.l, w)
                && LenAt(tree.lens, Pos(tree.lens, i)) > w + tree.l;
    DeepReads(T0, T, own, base, tree, w, i);
  }

  lemma FirstUntouched(T: seq<Huft>, own: seq<Label>, base: nat, tree: Tree)
    requires |own| == base <= |T|
    ensures Untouched(T, T, own, base, tree)
  {
  }

  /** Only the first |own| entries matter. */
  lemma DonePrefix(T: seq<Huft>, own: seq<Label>, base: nat, tree: Tree, P: nat)
    requires |own| <= |T| && DoneBelow(T, own, base, tree, P)
    ensures DoneBelow(T[..|own|], own, base, tree, P)
  {
    hide Shl, Low, MaxLen, TableBits, LenAt, Rev;
    forall a | base <= a < |own| && own[a].start <= a && SlotPos(tree, own[a], a) < P
      ensures EntryOK(T[..|own|], own, tree, a)
    {
      EntryFrame(T, T[..|own|], own, own, tree, a);
    }
  }

  /** The state between two codes: everything below `P` is done, and if that is not all then
    * `i` is the next code, at position `P`. */
  ghost predicate Between(T: seq<Huft>, own: seq<Label>, base: nat, tree: Tree, st: Stack,
                          k: nat, i: nat, q: nat, z: nat, P: nat)
  {
    && |own| <= |T| && base <= |own|
    && DoneBelow(T, own, base, tree, P)
    && Rooted(own, base, tree)
    && (P < Pow2(MaxLen(tree.lens)) ==>
          && Pos(tree.lens, i) == P && Ready(T, own, base, tree, st, k, i, q, z)
          && (st.h >= 0 ==> st.w >= 0 && i >= Pow2(st.w)))
  }

  /** Where the next value is taken from: the one for rank `rank` of length `k`, or the end. */
  ghost function ValueIndex(b: Lengths, n: nat, k: nat, rank: nat): nat {
    if Offset(b, k) + rank < n then Offset(b, k) + rank else n
  }

  lemma EndLe(b: Lengths, c: seq<nat>, g: nat, k: nat)
    requires Filled(b, c, g) && k <= g
    ensures FilledEnd(b, g, k) <= Pow2(g)
    ensures k > 0 ==> FilledEnd(b, g, k - 1) == End(b, g, k - 1)
  {
    hide Shl, Count;
    if k < g { EndMono(b, g, k, g - 1); }
  }

  /** The code of a rank and what follows it. */
  lemma RankStep(b: Lengths, c: seq<nat>, g: nat, k: nat, rank: nat, P: nat)
    requires Filled(b, c, g) && 1 <= k <= g && rank < c[k]
    requires P == End(b, g, k - 1) + Shl(rank, g - k) && P + Shl(c[k] - rank, g - k) == FilledEnd(b, g, k)
    ensures LenAt(b, P) == k && P + Pow2(g - k) <= Pow2(g)
    ensures P + Pow2(g - k) == End(b, g, k - 1) + Shl(rank + 1, g - k)
    ensures P + Pow2(g - k) + Shl(c[k] - rank - 1, g - k) == FilledEnd(b, g, k)
  {
    hide Shl, Count, End, MaxLen, FilledEnd, LenAt;
    EndLe(b, c, g, k);
    ShlMono(0, rank, g - k);
    ShlAdd(rank, 1, g - k);
    ShlAdd(c[k] - rank - 1, 1, g - k);
    LenAtFilled(b, c, g, k, P);
  }

  /** All codes of length `k`. */
  method MakeLength(hp: array<Huft>, v: seq<nat>, n: nat, c: seq<nat>, k: nat, g: nat, l: nat, al: Alphabet,
                    i0: nat, st0: Stack, q0: nat, z0: nat, r0: Huft, p0: nat, hn0: nat,
                    ghost own0: seq<Label>, ghost base: nat, ghost tree: Tree, ghost T0: seq<Huft>)
    returns (ok: bool, i: nat, st: Stack, q: nat, z: nat, r: Huft, p: nat, hn: nat, ghost own: seq<Label>)
    requires hp.Length == MANY && tree.l == l && tree.alphabet == al
    requires Filled(tree.lens, c, g) && Ordered(tree.lens, v, n, g)
    requires 1 <= k <= g
    requires forall s :: 0 <= s < |tree.lens| ==> InAlphabet(al, s)
    requires |own0| == hn0 <= MANY
    requires Between(hp[..], own0, base, tree, st0, k, i0, q0, z0, FilledEnd(tree.lens, g, k - 1))
    requires p0 == ValueIndex(tree.lens, n, k, 0)
    requires LoneCode(tree.lens) && p0 > 0 ==> LoneBase(tree, r0.base)
    requires base < hn0 || FilledEnd(tree.lens, g, k - 1) == 0
    requires Untouched(T0, hp[..], own0, base, tree)
    modifies hp
    ensures ok ==> Untouched(T0, hp[..], own, base, tree)
    ensures hn0 <= hn <= MANY && base <= hn && (ok ==> |own| == hn)
    ensures forall d :: 0 <= d < hp.Length && !(base <= d < hn) ==> hp[d] == old(hp[d])
    ensures !ok ==> hn0 + SpaceFrom(tree, FilledEnd(tree.lens, g, k - 1)) > MANY
    ensures ok ==> hn + SpaceFrom(tree, FilledEnd(tree.lens, g, k)) == hn0 + SpaceFrom(tree, FilledEnd(tree.lens, g, k - 1))
    ensures ok ==> Between(hp[..], own, base, tree, st, k, i, q, z, FilledEnd(tree.lens, g, k))
    ensures ok ==> p == ValueIndex(tree.lens, n, k, c[k])
    ensures ok ==> LoneCode(tree.lens) && p > 0 ==> LoneBase(tree, r.base)
    ensures ok ==> base < hn || FilledEnd(tree.lens, g, k) == 0
  {
    hide Shl, Shr, Rev, Low, MaxLen, LenAt, TableBits, DoneBelow, Linked, Sorted, Shape, Count, End,
      Offset, LeafOK, LoneCode, LoneBase, Ordered, Ready, Pos, Rooted, Filled, FilledEnd, SpaceFrom, LevelSpace, FirstLevel, Untouched;
    ghost var b := tree.lens;
    i, st, q, z, r, p, hn, own := i0, st0, q0, z0, r0, p0, hn0, own0;
    FilledMax(b, c, g);
    EndLe(b, c, g, k);
    FilledStep(b, c, g, k);
    ghost var P := FilledEnd(b, g, k - 1);
    var a := c[k];
    ShlZero(g - k);
    while a > 0
      invariant 0 <= a <= c[k] && hn0 <= |own| == hn <= MANY
      invariant P + Shl(a, g - k) == FilledEnd(b, g, k)
      invariant P == End(b, g, k - 1) + Shl(c[k] - a, g - k)
      invariant Between(hp[..], own, base, tree, st, k, i, q, z, P)
      invariant p == ValueIndex(b, n, k, c[k] - a)
      invariant LoneCode(b) && p > 0 ==> LoneBase(tree, r.base)
      invariant base < hn || P == 0
      invariant Untouched(T0, hp[..], own, base, tree)
      invariant hn + SpaceFrom(tree, P) == hn0 + SpaceFrom(tree, FilledEnd(b, g, k - 1))
      invariant forall d :: 0 <= d < hp.Length && !(base <= d < hn) ==> hp[d] == old(hp[d])
    {
      a := a - 1;
      ghost var rank := c[k] - 1 - a;
      RankStep(b, c, g, k, rank, P);
      ReadyCode(hp[..], own, base, tree, st, k, i, q, z);
      SpaceStep(tree, P, i, k);
      if LoneCode(b) { LoneIsShort(b); }
      ok, st, q, z, hn, r, own := MakeTables(hp, c, k, g, l, a, i, st, q, z, hn, r, own, base, tree, T0);
      if !ok {
        return;
      }
      ReadyRooted(hp[..], own, base, tree, st, k, i, q, z);
      CurrentTable(hp[..], own, base, tree, st, k, i, q, z);
      ReadySpace(hp[..], own, base, tree, st, k, i, q, z);
      i, st, r, p := EnterCode(hp, v, n, c, k, g, l, rank, i, st, q, z, r, p, al, own, base, tree, T0);
      P := P + Pow2(g - k);
    }
    ok := true;
  }
  lemma ReadyCode(T: seq<Huft>, own: seq<Label>, base: nat, tree: Tree, st: Stack, k: nat, i: nat, q: nat, z: nat)
    requires Ready(T, own, base, tree, st, k, i, q, z)
    ensures i < Pow2(k)
  {
  }

  lemma SpaceStep(tree: Tree, P: nat, i: nat, k: nat)
    requires 0 < k <= MaxLen(tree.lens) && P < Pow2(MaxLen(tree.lens))
    requires i < Pow2(k) && Pos(tree.lens, i) == P && LenAt(tree.lens, P) == k
    ensures SpaceFrom(tree, P)
            == LevelSpace(tree, i, k, FirstLevel(tree, i, 0)) + SpaceFrom(tree, P + Pow2(MaxLen(tree.lens) - k))
  {
    hide Shl, Low, MaxLen, LenAt, LevelSpace, FirstLevel;
    var g := MaxLen(tree.lens);
    RevRev(g, i);
    Pow2Mono(k, g);
    LowSmall(i, g);
  }

  lemma LoneIsShort(b: Lengths)
    requires LoneCode(b)
    ensures MaxLen(b) == 1
  {
  }

  lemma ReadySpace(T: seq<Huft>, own: seq<Label>, base: nat, tree: Tree, st: Stack, k: nat, i: nat, q: nat, z: nat)
    requires Ready(T, own, base, tree, st, k, i, q, z) && k <= st.w + tree.l
    ensures base < |own| <= |T|
  {
    hide Low;
  }

  lemma OffsetSkip(b: Lengths, k: nat)
    requires forall t :: 1 <= t < k ==> Count(b, t) == 0
    ensures Offset(b, k) == 0
  {
    if k > 1 { OffsetSkip(b, k - 1); }
  }

  /** Make all codes, from the shortest on, and the tables for them. */
  method MakeCodes(hp: array<Huft>, v: seq<nat>, n: nat, c: seq<nat>, j0: nat, g: nat, l: nat, x: seq<nat>,
                   hn0: nat, al: Alphabet, ghost tree: Tree)
    returns (ok: bool, hn: nat)
    requires hp.Length == MANY && hn0 <= MANY
    requires tree.l == l && tree.alphabet == al
    requires Filled(tree.lens, c, g) && Ordered(tree.lens, v, n, g)
    requires 1 <= j0 <= l <= g && (forall k :: 1 <= k < j0 ==> Count(tree.lens, k) == 0)
    requires Count(tree.lens, j0) > 0
    requires forall s :: 0 <= s < |tree.lens| ==> InAlphabet(al, s)
    requires |x| == BMAX + 1
    modifies hp
    ensures hn0 <= hn <= MANY
    ensures forall d :: 0 <= d < hp.Length && !(hn0 <= d < hn) ==> hp[d] == old(hp[d])
    ensures !ok ==> hn0 + Space(tree) > MANY
    ensures ok ==> hn == hn0 + Space(tree)
    ensures ok ==> (IsTable(hp[..hn], tree, hn0, l, 0, 0) <==> Shallow(tree))
    ensures ok && !Shallow(tree) ==> ReadsUnwritten(old(hp[..]), hp[..hn], hn0, l)
  {
    hide Shl, Shr, Rev, Low, MaxLen, LenAt, TableBits, DoneBelow, Linked, Sorted, Shape, Count, End,
      Offset, LeafOK, LoneCode, LoneBase, Ordered, Ready, Shallow, Pos, Rooted, IsTable, LabelOK, Filled, FilledEnd, SpaceFrom, Untouched, ReadsUnwritten;
    ghost var b, base := tree.lens, hn0;
    FilledMax(b, c, g);
    var st := Stack(-1, 0 - l, seq(BMAX, _ => 0), x[0 := 0]);
    var i, k, p, q, z := 0, j0, 0, 0, 0;
    var r := Huft(0, 0, 0);
    ghost var own: seq<Label> := seq(hn0, _ => Label(0, 0, 0, 0));
    hn := hn0;
    ghost var T0 := hp[..];
    FirstState(hp[..], own, base, tree, st, c, g, j0, n, v);
    FirstUntouched(T0, own, base, tree);
    while k <= g
      invariant j0 <= k <= g + 1
      invariant |own| == hn && base <= hn <= MANY
      invariant Between(hp[..], own, base, tree, st, if k <= g then k else g, i, q, z, FilledEnd(b, g, k - 1))
      invariant k <= g ==> p == ValueIndex(b, n, k, 0)
      invariant LoneCode(b) && p > 0 ==> LoneBase(tree, r.base)
      invariant base < hn || FilledEnd(b, g, k - 1) == 0
      invariant Untouched(T0, hp[..], own, base, tree)
      invariant hn + SpaceFrom(tree, FilledEnd(b, g, k - 1)) == hn0 + SpaceFrom(tree, 0)
      invariant forall d :: 0 <= d < hp.Length && !(hn0 <= d < hn) ==> hp[d] == old(hp[d])
    {
      ok, i, st, q, z, r, p, hn, own := MakeLength(hp, v, n, c, k, g, l, al, i, st, q, z, r, p, hn, own, base, tree, T0);
      if !ok {
        return;
      }
      NextLength(hp[..], own, base, tree, st, c, g, k, i, q, z, n, v);
      k := k + 1;
    }
    ok := true;
    FilledAll(b, c, g);
    SpaceEnd(tree);
    DonePrefix(hp[..], own, base, tree, Pow2(g));
    assert hp[..][..hn] == hp[..hn];
    RootBits(tree, c, 0);
    assert LenAt(b, 0) == j0;
    AllDone(hp[..hn], own, base, tree);
    if !Shallow(tree) { AllDoneDeep(T0, hp[..], hp[..hn], own, base, tree); }
  }

  lemma SpaceEnd(tree: Tree)
    requires MaxLen(tree.lens) > 0
    ensures SpaceFrom(tree, Pow2(MaxLen(tree.lens))) == 0
  {
  }

  lemma FilledAll(b: Lengths, c: seq<nat>, g: nat)
    requires Filled(b, c, g)
    ensures FilledEnd(b, g, g) == Pow2(g) > 0
  {
  }

  lemma FirstState(T: seq<Huft>, own: seq<Label>, base: nat, tree: Tree, st: Stack, c: seq<nat>, g: nat,
                   j0: nat, n: nat, v: seq<nat>)
    requires Filled(tree.lens, c, g) && Ordered(tree.lens, v, n, g)
    requires 1 <= j0 <= tree.l <= g && (forall k :: 1 <= k < j0 ==> Count(tree.lens, k) == 0)
    requires Count(tree.lens, j0) > 0
    requires |own| == base <= |T|
    requires st.h == -1 && st.w + tree.l == 0
    requires |st.u| == MAX_BITS && |st.x| == MAX_BITS + 1 && st.x[0] == 0
    ensures Between(T, own, base, tree, st, j0, 0, 0, 0, FilledEnd(tree.lens, g, j0 - 1))
    ensures FilledEnd(tree.lens, g, j0 - 1) == 0 == ValueIndex(tree.lens, n, j0, 0)
    ensures LenAt(tree.lens, 0) == j0
  {
    hide Shl, Shr, Rev, Low, MaxLen, Count, Ready, Ordered, LenAt;
    ReadyInit(T, own, base, tree, st.u, st.x, j0);
    assert st == Stack(-1, 0 - tree.l, st.u, st.x);
    EndSkip(tree.lens, g, j0 - 1);
    OffsetSkip(tree.lens, j0);
    assert 0 < End(tree.lens, g, j0) by { ShlMono(1, Count(tree.lens, j0), g - j0); }
    LenAtUnique(tree.lens, 0, j0);
  }

  lemma NextLength(T: seq<Huft>, own: seq<Label>, base: nat, tree: Tree, st: Stack, c: seq<nat>, g: nat,
                   k: nat, i: nat, q: nat, z: nat, n: nat, v: seq<nat>)
    requires Filled(tree.lens, c, g) && Ordered(tree.lens, v, n, g) && 1 <= k <= g
    requires Between(T, own, base, tree, st, k, i, q, z, FilledEnd(tree.lens, g, k))
    ensures Between(T, own, base, tree, st, if k < g then k + 1 else g, i, q, z, FilledEnd(tree.lens, g, k))
    ensures k < g ==> ValueIndex(tree.lens, n, k, c[k]) == ValueIndex(tree.lens, n, k + 1, 0)
  {
    hide Shl, Shr, Rev, Low, MaxLen, Count, Ready, Ordered;
    var P := FilledEnd(tree.lens, g, k);
    if k < g && P < Pow2(g) { ReadyLonger(T, own, base, tree, st, k, i, q, z); }
    if k < g { OrderedTotal(tree.lens, v, n, g); if k + 1 < g { OffsetMono(tree.lens, k + 1, g); } }
  }

  lemma OrderedTotal(b: Lengths, v: seq<nat>, n: nat, g: nat)
    requires Ordered(b, v, n, g)
    ensures n == Offset(b, g) + Count(b, g)
  {
  }

  /** The code space used by codes longer than `t` bits bounds their number from below. */
  lemma {:induction false} TailCount(b: Lengths, g: nat, t: nat, k: nat)
    requires t < k <= g
    ensures End(b, g, k) - End(b, g, t) <= Shl(Offset(b, k + 1) - Offset(b, t + 1), g - t - 1)
  {
    hide Shl;
    var d := g - t - 1;
    if k == t + 1 {
      ShlZero(d);
    } else {
      TailCount(b, g, t, k - 1);
      var c := Count(b, k);
      ShlAdd(Offset(b, k) - Offset(b, t + 1), c, d);
      ShlShrink(c, g - k, d);
    }
    assert Offset(b, k + 1) == Offset(b, k) + Count(b, k);
  }

  lemma ShlShrink(c: nat, m: nat, n: nat)
    requires m <= n
    ensures Shl(c, m) <= Shl(c, n)
  {
    if m < n { ShlShrink(c, m, n - 1); }
  }

  /** A complete code of fewer than 2^(l+1) symbols never needs a table deeper than `l` bits:
    * a prefix with only longer codes would have at least 2^(l+1) of them. */
  lemma CompleteIsShallow(tree: Tree)
    requires ValidLengths(tree.lens) && MaxLen(tree.lens) > 0
    requires !OverSubscribed(tree.lens) && !Incomplete(tree.lens)
    requires |tree.lens| < Pow2(tree.l + 1)
    ensures Shallow(tree)
  {
    hide Shl, Shr, Rev, Low, MaxLen, LenAt, Count, Offset, OverSubscribed, Incomplete, IsLevel;
    var b, g, l := tree.lens, MaxLen(tree.lens), tree.l;
    KraftAtMax(b);
    forall w, i | 0 <= w < g && 0 <= i < Pow2(w) && IsLevel(l, w)
      ensures LenAt(b, Pos(b, i)) <= w + l
    {
      var k := LenAt(b, Pos(b, i));
      if k > w + l {
        var t := w + l;
        PrefixFits(g, w, i);
        EndMono(b, g, t, k - 1);
        TailCount(b, g, t, g);
        OffsetTotal(b, g + 1);
        // at least 2^(g-w) of the code space is left to at most |b| codes of 2^(g-t-1) each
        ShlMono(Offset(b, g + 1) - Offset(b, t + 1), Pow2(l + 1) - 1, g - t - 1);
        ShlMono(Pow2(l + 1) - 1, Pow2(l + 1), g - t - 1);
        Pow2Add(l + 1, g - t - 1);
      }
    }
  }

  /** A code of one bit is shallow. */
  lemma SingleTableShallow(tree: Tree)
    requires MaxLen(tree.lens) > 0 && tree.l == MaxLen(tree.lens)
    ensures Shallow(tree)
  {
    hide Shl, Shr, Rev, Low, MaxLen, LenAt, IsLevel;
  }

  /** A complete code that is not shallow when looked up one bit at a time: after the bit 1 all
    * codes have two more.  The table made there has four entries, but its codes are filed under
    * tables for one more bit each, which fill only two of them.  The widths that the callers ask
    * for rule this out. */
  lemma DeepExample(al: Alphabet)
    ensures var b := [1, 3, 3, 3, 3];
            ValidLengths(b) && MaxLen(b) == 3 && !OverSubscribed(b) && !Incomplete(b) && !Shallow(Tree(b, 1, al))
  {
    hide MaxLen, End, Count, Shl, Rev, LenAt, OverSubscribed, Incomplete;
    var b := [1, 3, 3, 3, 3];
    MaxFive();
    EndFive();
    KraftAtMax(b);
    RevOne();
    LenAtUnique(b, 4, 3);
    LevelOne();
    assert LenAt(b, Pos(b, 1)) == 3;
  }

  lemma LevelOne()
    ensures IsLevel(1, 1) && Pow2(1) == 2 && Pow2(3) == 8
  {
  }

  lemma EndFive()
    ensures var b := [1, 3, 3, 3, 3]; End(b, 3, 2) == 4 && End(b, 3, 3) == 8
  {
    hide Count;
    var b := [1, 3, 3, 3, 3];
    CountFive(1, 3, 3, 3, 3, 1);
    CountFive(1, 3, 3, 3, 3, 2);
    CountFive(1, 3, 3, 3, 3, 3);
    assert Shl(1, 2) == 4 && Shl(4, 0) == 4;
    ShlZero(1);
    assert End(b, 3, 1) == End(b, 3, 0) + Shl(1, 2);
    assert End(b, 3, 2) == End(b, 3, 1) + Shl(0, 1);
  }

  lemma CountFive(p: nat, q: nat, r: nat, s: nat, t: nat, k: nat)
    ensures Count([p, q, r, s, t], k) ==
            (if p == k then 1 else 0) + (if q == k then 1 else 0) + (if r == k then 1 else 0)
            + (if s == k then 1 else 0) + (if t == k then 1 else 0)
  {
    var b := [p, q, r, s, t];
    CountStep(b, 0, k);
    CountStep(b, 1, k);
    CountStep(b, 2, k);
    CountStep(b, 3, k);
    CountStep(b, 4, k);
    assert b[..5] == b && b[..0] == [];
  }

  lemma MaxFive()
    ensures MaxLen([1, 3, 3, 3, 3]) == 3
  {
    var b := [1, 3, 3, 3, 3];
    assert b[1] == 3;
    assert forall s :: 0 <= s < |b| ==> b[s] <= 3;
  }

  lemma RevOne()
    ensures Rev(3, 1) == 4
  {
    assert Rev(2, 0) == 0 by { RevZero(2); }
    assert Shl(1, 2) == 4;
  }

  /** The tables for the code with lengths `b`, looked up `m` bits at a time.
    *
    * Returns the verdict, the address of the first table, the lookup width used, and the
    * amount of table space in use afterwards. */
  method Build(b: Lengths, al: Alphabet, m: nat, hp: array<Huft>, hn0: nat, v: array<nat>)
    returns (r: Verdict, t: nat, l: nat, hn: nat)
    requires ValidLengths(b) && |b| > 0
    requires forall s :: 0 <= s < |b| ==> InAlphabet(al, s)
    requires hp.Length == MANY && hn0 <= MANY && v.Length >= |b|
    modifies hp, v
    ensures hn0 <= hn <= MANY && t == hn0
    ensures forall d :: 0 <= d < hp.Length && !(hn0 <= d < hn) ==> hp[d] == old(hp[d])
    ensures MaxLen(b) == 0 ==> r == Ok && l == 0 && hn == hn0
    ensures OverSubscribed(b) ==> r == DataError
    ensures MaxLen(b) > 0 && r == Ok ==> !Incomplete(b) || MaxLen(b) == 1
    ensures r == BufError ==> Incomplete(b) && MaxLen(b) > 1
    ensures MaxLen(b) > 0 && r != DataError ==>
      && 1 <= l <= MaxLen(b) && (m >= MaxLen(b) ==> l == MaxLen(b)) && l <= BMAX
      && (m <= MaxLen(b) ==> l >= m)
      && (IsTable(hp[..hn], Tree(b, l, al), t, l, 0, 0) <==> Shallow(Tree(b, l, al)))
      && (!Shallow(Tree(b, l, al)) ==> ReadsUnwritten(old(hp[..]), hp[..hn], t, l))
    ensures MaxLen(b) > 0 ==> l == Width(b, m)
    ensures MaxLen(b) > 0 && !OverSubscribed(b) ==>
      && (r == DataError <==> hn0 + Space(Tree(b, l, al)) > MANY)
      && (r != DataError ==> hn == hn0 + Space(Tree(b, l, al)))
  {
    hide MaxLen, Count, End, Shl, OverSubscribed, Incomplete, Shallow, IsTable, Offset, LenAt, Filed, Ordered, ReadsUnwritten;
    t, hn := hn0, hn0;
    var c := CountLengths(b);
    AllZero(b);
    if c[0] == |b| {
      ZeroNotOver(b);
      return Ok, t, 0, hn;
    }
    var j, g;
    j, g, l := LengthBounds(b, c, m);
    KraftAtMax(b);
    var y := MissingCodes(b, c, j, g);
    if y < 0 {
      return DataError, t, l, hn;
    }
    assert End(b, g, g) == End(b, g, g - 1) + c[g] by { EndTop(b, g); }
    c := c[g := c[g] + y];
    var x := Offsets(b, c, g);
    x := SortValues(b, x, g, v);
    FiledOrdered(b, v[..], g);
    ghost var tree := Tree(b, l, al);
    FilledFrom(b, c, g);
    var ok;
    ok, hn := MakeCodes(hp, v[..], x[g], c, j, g, l, x, hn0, al, tree);
    if !ok {
      return DataError, t, l, hn;
    }
    r := if y != 0 && g != 1 then BufError else Ok;
  }

  lemma EndTop(b: Lengths, g: nat)
    requires g > 0
    ensures End(b, g, g) == End(b, g, g - 1) + Count(b, g)
  {
    ShlZeroBits(Count(b, g));
  }

  lemma FilledFrom(b: Lengths, c: seq<nat>, g: nat)
    requires |c| == BMAX + 1 && 0 < g <= BMAX && g == MaxLen(b)
    requires forall k :: 1 <= k < g ==> c[k] == Count(b, k)
    requires c[g] >= Count(b, g) && End(b, g, g - 1) + c[g] == Pow2(g)
    ensures Filled(b, c, g)
  {
  }

  lemma ZeroNotOver(b: Lengths)
    requires MaxLen(b) == 0
    ensures !OverSubscribed(b)
  {
    EndBeyondMax(b, MAX_BITS, MAX_BITS);
  }
}
