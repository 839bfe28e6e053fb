/** Canonical Huffman codes (section 3.2.2 of RFC 1951) given by a list of code lengths.
  *
  * A list in which symbol `s` has length `lens[s]` (0: no code) fixes a prefix code.  A code
  * of length `k` is read as the first `k` bits of the stream; the stream is a number whose
  * low bit comes first.  Written as a `g`-bit number with the first bit most significant
  * (`Rev(g, x)`, `g` the longest length), the streams starting with a given code form an
  * interval, and the intervals of the codes lie side by side in canonical order.
  */
module Canonical {
  import opened Bits

  const MAX_BITS: nat := 15

  type Lengths = seq<nat>

  ghost predicate ValidLengths(lens: Lengths) {
    forall s :: 0 <= s < |lens| ==> lens[s] <= MAX_BITS
  }

  /** The number of symbols with code length `k`. */
  function Count(lens: Lengths, k: nat): (r: nat)
    ensures r <= |lens|
  {
    if |lens| == 0 then 0
    else Count(lens[..|lens| - 1], k) + (if lens[|lens| - 1] == k then 1 else 0)
  }

  /** The number of symbols before `s` with the same code length. */
  function Rank(lens: Lengths, s: nat): nat
    requires s < |lens|
  {
    Count(lens[..s], lens[s])
  }

  /** The smallest code of length `k`, by the recurrence of section 3.2.2 step 2. */
  function NextCode(lens: Lengths, k: nat): nat
  {
    if k <= 1 then 0 else 2 * (NextCode(lens, k - 1) + Count(lens, k - 1))
  }

  /** The code assigned to `s`, by step 3. */
  function Code(lens: Lengths, s: nat): nat
    requires s < |lens|
  {
    NextCode(lens, lens[s]) + Rank(lens, s)
  }

  /** The stream `x` starts with the code of `s` (most significant code bit first). */
  predicate StartsWith(lens: Lengths, s: nat, x: nat)
  {
    s < |lens| && lens[s] > 0 && Rev(lens[s], x) == Code(lens, s)
  }

  /** The longest length used, 0 when there is no code at all. */
  function MaxLen(lens: Lengths): (r: nat)
    ensures forall s :: 0 <= s < |lens| ==> lens[s] <= r
    ensures r > 0 ==> exists s :: 0 <= s < |lens| && lens[s] == r
  {
    if |lens| == 0 then 0
    else
      var m := MaxLen(lens[..|lens| - 1]);
      assert forall s :: 0 <= s < |lens| - 1 ==> lens[s] == lens[..|lens| - 1][s];
      assert m > 0 ==> exists s :: 0 <= s < |lens| && lens[s] == m;
      if lens[|lens| - 1] > m then lens[|lens| - 1] else m
  }

  /** Where the codes of length at most `k` end, in the space of `g`-bit strings. */
  function End(lens: Lengths, g: nat, k: nat): nat
    requires k <= g
  {
    if k == 0 then 0 else End(lens, g, k - 1) + Shl(Count(lens, k), g - k)
  }

  /** The Kraft sum, scaled to 15 bits. */
  function KraftSum(lens: Lengths): nat {
    End(lens, MAX_BITS, MAX_BITS)
  }

  predicate OverSubscribed(lens: Lengths) {
    KraftSum(lens) > Pow2(MAX_BITS)
  }

  predicate Incomplete(lens: Lengths) {
    KraftSum(lens) < Pow2(MAX_BITS)
  }

  // ----- Counting

  lemma CountStep(lens: Lengths, i: nat, k: nat)
    requires i < |lens|
    ensures Count(lens[..i + 1], k) == Count(lens[..i], k) + (if lens[i] == k then 1 else 0)
  {
    assert lens[..i + 1][..i] == lens[..i];
  }

  lemma CountMono(lens: Lengths, i: nat, j: nat, k: nat)
    requires i <= j <= |lens|
    ensures Count(lens[..i], k) <= Count(lens[..j], k)
    decreases j - i
  {
    if i < j {
      CountStep(lens, i, k);
      CountMono(lens, i + 1, j, k);
    }
  }

  lemma RankBound(lens: Lengths, s: nat)
    requires s < |lens|
    ensures Rank(lens, s) < Count(lens, lens[s])
  {
    CountStep(lens, s, lens[s]);
    CountMono(lens, s + 1, |lens|, lens[s]);
    assert lens[..|lens|] == lens;
  }

  lemma CountAboveMax(lens: Lengths, k: nat)
    requires k > MaxLen(lens)
    ensures Count(lens, k) == 0
  {
    if |lens| > 0 { CountAboveMax(lens[..|lens| - 1], k); }
  }

  lemma CountAtMax(lens: Lengths)
    requires MaxLen(lens) > 0
    ensures Count(lens, MaxLen(lens)) > 0
  {
    var s :| 0 <= s < |lens| && lens[s] == MaxLen(lens);
    RankBound(lens, s);
  }

  /** The symbol of length `k` and rank `r`. */
  function Nth(lens: Lengths, k: nat, r: nat): (s: nat)
    requires r < Count(lens, k)
    ensures s < |lens| && lens[s] == k && Rank(lens, s) == r
  {
    var n := |lens| - 1;
    if lens[n] == k && r == Count(lens[..n], k) then n
    else
      var s := Nth(lens[..n], k, r);
      assert lens[..n][..s] == lens[..s];
      s
  }

  lemma RankInjective(lens: Lengths, s: nat, t: nat)
    requires s < |lens| && t < |lens| && lens[s] == lens[t] && Rank(lens, s) == Rank(lens, t)
    ensures s == t
  {
    if s < t {
      CountStep(lens, s, lens[s]);
      CountMono(lens, s + 1, t, lens[s]);
    } else if t < s {
      CountStep(lens, t, lens[s]);
      CountMono(lens, t + 1, s, lens[s]);
    }
  }

  // ----- The code space

  lemma EndMono(lens: Lengths, g: nat, j: nat, k: nat)
    requires j <= k <= g
    ensures End(lens, g, j) <= End(lens, g, k)
  {
    if j < k { EndMono(lens, g, j, k - 1); }
  }

  /** Widening the code space from `g` to `g + d` bits scales it. */
  lemma EndScale(lens: Lengths, g: nat, d: nat, k: nat)
    requires k <= g
    ensures End(lens, g + d, k) == Shl(End(lens, g, k), d)
  {
    if k == 0 {
      ShlZero(d);
    } else {
      EndScale(lens, g, d, k - 1);
      ShlAdd(End(lens, g, k - 1), Shl(Count(lens, k), g - k), d);
      ShlShl(Count(lens, k), g - k, d);
    }
  }

  lemma EndBeyondMax(lens: Lengths, g: nat, k: nat)
    requires MaxLen(lens) <= k <= g
    ensures End(lens, g, k) == End(lens, g, MaxLen(lens))
  {
    if k > MaxLen(lens) {
      EndBeyondMax(lens, g, k - 1);
      CountAboveMax(lens, k);
      ShlZero(g - k);
    }
  }

  /** The Kraft sum measured with the longest length instead of 15 bits. */
  lemma KraftAtMax(lens: Lengths)
    requires ValidLengths(lens)
    ensures MaxLen(lens) <= MAX_BITS
    ensures var g := MaxLen(lens);
            && (OverSubscribed(lens) <==> End(lens, g, g) > Pow2(g))
            && (Incomplete(lens) <==> End(lens, g, g) < Pow2(g))
  {
    var g := MaxLen(lens);
    EndScale(lens, g, MAX_BITS - g, g);
    EndBeyondMax(lens, MAX_BITS, MAX_BITS);
    Pow2Add(g, MAX_BITS - g);
    var e := End(lens, g, g);
    if e < Pow2(g) {
      ShlMono(e, Pow2(g), MAX_BITS - g);
    } else if e > Pow2(g) {
      ShlMono(Pow2(g), e, MAX_BITS - g);
    }
  }

  /** The RFC recurrence gives the start of each length's interval. */
  lemma NextCodeIsEnd(lens: Lengths, g: nat, k: nat)
    requires 1 <= k <= g
    ensures Shl(NextCode(lens, k), g - k) == End(lens, g, k - 1)
  {
    if k == 1 {
      ShlZero(g - 1);
    } else {
      NextCodeIsEnd(lens, g, k - 1);
      var n := NextCode(lens, k - 1) + Count(lens, k - 1);
      ShlAdd(NextCode(lens, k - 1), Count(lens, k - 1), g - (k - 1));
      assert Shl(n, g - (k - 1)) == End(lens, g, k - 1);
      ShlShl(n, 1, g - k);
      assert Shl(n, 1) == 2 * n;
    }
  }

  // ----- Decoding by code space position

  /** The length of the code covering position `v`, searching from `k` up. */
  function LenFrom(lens: Lengths, g: nat, k: nat, v: nat): (r: nat)
    requires k <= g
    ensures k <= r <= g
    ensures r < g ==> v < End(lens, g, r)
    ensures r > k ==> v >= End(lens, g, r - 1)
    decreases g - k
  {
    if k == g || v < End(lens, g, k) then k else LenFrom(lens, g, k + 1, v)
  }

  /** The length of the code covering position `v`; positions no code covers are given
    * codes of the longest length. */
  function LenAt(lens: Lengths, v: nat): (r: nat)
    requires MaxLen(lens) > 0
    ensures 1 <= r <= MaxLen(lens)
    ensures r < MaxLen(lens) ==> v < End(lens, MaxLen(lens), r)
    ensures v >= End(lens, MaxLen(lens), r - 1)
  {
    assert End(lens, MaxLen(lens), 0) == 0;
    LenFrom(lens, MaxLen(lens), 1, v)
  }

  lemma LenAtUnique(lens: Lengths, v: nat, k: nat)
    requires 1 <= k <= MaxLen(lens)
    requires v >= End(lens, MaxLen(lens), k - 1)
    requires k < MaxLen(lens) ==> v < End(lens, MaxLen(lens), k)
    ensures LenAt(lens, v) == k
  {
    var g := MaxLen(lens);
    var r := LenAt(lens, v);
    if r < k {
      EndMono(lens, g, r, k - 1);
    } else if k < r {
      EndMono(lens, g, k, r - 1);
    }
  }

  lemma {:induction false} LenAtMono(lens: Lengths, u: nat, v: nat)
    requires MaxLen(lens) > 0 && u <= v
    ensures LenAt(lens, u) <= LenAt(lens, v)
  {
    hide MaxLen, End;
    var g := MaxLen(lens);
    var r, q := LenAt(lens, u), LenAt(lens, v);
    if q < r {
      EndMono(lens, g, q, r - 1);
    }
  }

  /** The rank of the code covering `v` among those of its length. */
  function RankAt(lens: Lengths, v: nat): nat
    requires MaxLen(lens) > 0
  {
    var k := LenAt(lens, v);
    Shr(v - End(lens, MaxLen(lens), k - 1), MaxLen(lens) - k)
  }

  datatype Decoded = Symbol(sym: nat) | NoSymbol

  /** The symbol whose code covers position `v`. */
  function SymbolAt(lens: Lengths, v: nat): (d: Decoded)
    requires MaxLen(lens) > 0
    ensures d.Symbol? ==> d.sym < |lens| && lens[d.sym] == LenAt(lens, v)
  {
    var k := LenAt(lens, v);
    if RankAt(lens, v) < Count(lens, k) then Symbol(Nth(lens, k, RankAt(lens, v))) else NoSymbol
  }

  /** The position of the stream `x`. */
  function Pos(lens: Lengths, x: nat): nat {
    Rev(MaxLen(lens), x)
  }

  lemma ShrSub(v: nat, e: nat, n: nat)
    requires Shl(e, n) <= v && e >= 0
    ensures Shr(v - Shl(e, n), n) == Shr(v, n) - e
  {
    Split(v, n);
    LowBound(v, n);
    var q := Shr(v, n);
    if q < e { ShlMono(q + 1, e, n); ShlAdd(q, 1, n); }
    ShlAdd(q - e, e, n);
    Unsplit(Low(v, n), q - e, n);
  }

  lemma QuotientInterval(v: nat, first: nat, r: nat, n: nat, d: nat)
    requires r < n && Shr(v, d) == first + r
    ensures Shl(first, d) <= v < Shl(first, d) + Shl(n, d)
  {
    ShrQuotient(v, d, first + r);
    ShlMono(first, first + r, d);
    ShlMono(first + r + 1, first + n, d);
    ShlAdd(first, n, d);
  }

  /** A stream starting with the code of `s` lies in the interval of the codes that long. */
  lemma CodeInterval(lens: Lengths, x: nat, s: nat)
    requires StartsWith(lens, s, x)
    ensures End(lens, MaxLen(lens), lens[s] - 1) <= Pos(lens, x)
    ensures Pos(lens, x) < End(lens, MaxLen(lens), lens[s])
    ensures Shr(Pos(lens, x), MaxLen(lens) - lens[s]) == NextCode(lens, lens[s]) + Rank(lens, s)
  {
    hide Shl, Shr, Rev, Count, NextCode;
    var g, k := MaxLen(lens), lens[s];
    RevPrefix(k, g - k, x);
    NextCodeIsEnd(lens, g, k);
    RankBound(lens, s);
    QuotientInterval(Pos(lens, x), NextCode(lens, k), Rank(lens, s), Count(lens, k), g - k);
  }

  lemma StartsWithDecodes(lens: Lengths, x: nat, s: nat)
    requires StartsWith(lens, s, x)
    ensures MaxLen(lens) > 0 && SymbolAt(lens, Pos(lens, x)) == Symbol(s)
  {
    hide Shl, Shr, Rev, Count, End, NextCode, LenAt;
    var g, v, k := MaxLen(lens), Pos(lens, x), lens[s];
    CodeInterval(lens, x, s);
    LenAtUnique(lens, v, k);
    NextCodeIsEnd(lens, g, k);
    ShrSub(v, NextCode(lens, k), g - k);
    RankBound(lens, s);
    RankInjective(lens, s, Nth(lens, k, Rank(lens, s)));
  }

  lemma DecodesStartsWith(lens: Lengths, x: nat, s: nat)
    requires MaxLen(lens) > 0 && SymbolAt(lens, Pos(lens, x)) == Symbol(s)
    ensures StartsWith(lens, s, x)
  {
    hide Shl, Shr, Rev, Count, End, NextCode, LenAt, MaxLen;
    var g, v, k := MaxLen(lens), Pos(lens, x), lens[s];
    NextCodeIsEnd(lens, g, k);
    ShrSub(v, NextCode(lens, k), g - k);
    RevPrefix(k, g - k, x);
  }

  /** Canonical decoding by position finds exactly the symbol whose RFC code starts the
    * stream; hence no two codes start the same stream. */
  lemma DecodeIsRfc(lens: Lengths, x: nat, s: nat)
    requires MaxLen(lens) > 0
    ensures StartsWith(lens, s, x) <==> SymbolAt(lens, Pos(lens, x)) == Symbol(s)
  {
    if StartsWith(lens, s, x) {
      StartsWithDecodes(lens, x, s);
    }
    if SymbolAt(lens, Pos(lens, x)) == Symbol(s) {
      DecodesStartsWith(lens, x, s);
    }
  }

  // ----- The Kraft sum, symbol by symbol

  /** How much of a code space of 15 bits the codes of the symbols take. */
  function SpaceTaken(lens: Lengths): nat
    requires ValidLengths(lens)
  {
    if |lens| == 0 then 0
    else
      var k := lens[|lens| - 1];
      SpaceTaken(lens[..|lens| - 1]) + if k == 0 then 0 else Pow2(15 - k)
  }

  lemma {:induction false} EndAdd(lens: Lengths, x: nat, g: nat, k: nat)
    requires k <= g
    ensures End(lens + [x], g, k) == End(lens, g, k) + if 1 <= x <= k then Pow2(g - x) else 0
    decreases k
  {
    hide Shl;
    if k > 0 {
      EndAdd(lens, x, g, k - 1);
      assert (lens + [x])[..|lens|] == lens;
      ShlAdd(Count(lens, k), if x == k then 1 else 0, g - k);
      ShlZero(g - k);
    }
  }

  /** A code is over-subscribed or incomplete if its symbols' codes take more or less than all of that space. */
  lemma {:induction false} KraftIsSpace(lens: Lengths)
    requires ValidLengths(lens)
    ensures KraftSum(lens) == SpaceTaken(lens)
    ensures OverSubscribed(lens) <==> SpaceTaken(lens) > 0x8000
    ensures Incomplete(lens) <==> SpaceTaken(lens) < 0x8000
    decreases |lens|
  {
    hide End;
    Fifteen();
    if |lens| == 0 {
      NoCodes(15, 15);
    } else {
      var front, x := lens[..|lens| - 1], lens[|lens| - 1];
      KraftIsSpace(front);
      assert lens == front + [x];
      EndAdd(front, x, 15, 15);
    }
  }

  lemma Fifteen()
    ensures Pow2(15) == 0x8000
  {
    Pow2Add(5, 5);
    Pow2Add(10, 5);
    assert Pow2(5) == 32;
    assert Pow2(10) == 1024;
  }

  lemma {:induction false} NoCodes(g: nat, k: nat)
    requires k <= g
    ensures End([], g, k) == 0
    decreases k
  {
    if k > 0 {
      NoCodes(g, k - 1);
      ShlZero(g - k);
    }
  }
}
