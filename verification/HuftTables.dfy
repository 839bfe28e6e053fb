/** The linked lookup tables of the DEFLATE decoder and what it means for them to be right.
  *
  * A table of `j` bits is a run of 2^j entries.  An entry either ends a code or names a
  * further table for the next bits.  Tables live in one array and links are offsets.
  */
module HuftTables {
  import opened Bits
  import opened Canonical

  /** One table entry: operation byte, bits to drop, and value or link offset. */
  datatype Huft = Huft(exop: nat, bits: nat, base: nat)

  const EXOP_END_OF_BLOCK: nat := 32 + 64
  const EXOP_INVALID: nat := 128 + 64

  /** How symbols are turned into entries: symbols below `simple` stand for themselves, the
    * others index a list of base values and a list of extra bit counts. */
  datatype Alphabet = Alphabet(simple: nat, bases: seq<nat>, extras: seq<nat>)

  /** A code together with its alphabet and the number of bits looked up at a time. */
  datatype Tree = Tree(lens: Lengths, l: nat, alphabet: Alphabet)

  predicate InAlphabet(al: Alphabet, s: nat) {
    s < al.simple || (s - al.simple < |al.bases| && s - al.simple < |al.extras|)
  }

  function SymbolExop(al: Alphabet, s: nat): nat
    requires InAlphabet(al, s)
  {
    if s < al.simple then (if s < 256 then 0 else EXOP_END_OF_BLOCK)
    else (al.extras[s - al.simple] + 16 + 64) % 256
  }

  function SymbolBase(al: Alphabet, s: nat): nat
    requires InAlphabet(al, s)
  {
    if s < al.simple then s else al.bases[s - al.simple]
  }

  /** There is a single code, of one bit. */
  predicate LoneCode(lens: Lengths) {
    MaxLen(lens) == 1 && Count(lens, 1) == 1
  }

  /** `base` is that of the symbol of the single code. */
  predicate LoneBase(tree: Tree, base: nat)
    requires LoneCode(tree.lens)
  {
    var s := Nth(tree.lens, 1, 0);
    InAlphabet(tree.alphabet, s) && base == SymbolBase(tree.alphabet, s)
  }

  /** The entry ends the code covering position `v`, of which `w` bits were dropped before. */
  predicate LeafOK(e: Huft, tree: Tree, w: nat, v: nat)
    requires MaxLen(tree.lens) > 0
  {
    && e.bits == LenAt(tree.lens, v) - w
    && match SymbolAt(tree.lens, v)
       case Symbol(s) => InAlphabet(tree.alphabet, s)
                         && e.exop == SymbolExop(tree.alphabet, s)
                         && e.base == SymbolBase(tree.alphabet, s)
       case NoSymbol =>
         && e.exop == EXOP_INVALID
         // with a single one-bit code, the entry for the other bit repeats its symbol's base
         && (LoneCode(tree.lens) ==> LoneBase(tree, e.base))
  }

  /** The size in bits of the table for streams that start with the `w` bits `pat`: just
    * enough for the longest code with that prefix, but at most `l`, unless even the shortest
    * code with that prefix is longer than `w + l` bits. */
  function TableBits(tree: Tree, w: nat, pat: nat): (j: nat)
    requires w < MaxLen(tree.lens)
    ensures w + j <= MaxLen(tree.lens)
  {
    var g := MaxLen(tree.lens);
    var shortest := LenAt(tree.lens, Rev(g, pat));
    var longest := LenAt(tree.lens, Rev(g, pat) + Pow2(g - w) - 1);
    if shortest > w + tree.l then shortest - w
    else if longest <= w then 0
    else if longest < w + tree.l then longest - w
    else tree.l
  }

  /** The entries from `t` on are the complete table for prefix `pat` of `w` bits. */
  ghost predicate IsTable(T: seq<Huft>, tree: Tree, t: nat, j: nat, w: nat, pat: nat)
    decreases |T| - t, 1
  {
    && 0 < MaxLen(tree.lens)
    && w < MaxLen(tree.lens)
    && pat < Pow2(w)
    && j == TableBits(tree, w, pat)
    && t + Pow2(j) <= |T|
    && forall i :: 0 <= i < Pow2(j) ==> IsSlot(T, tree, t, j, w, pat, i)
  }

  /** Slot `i` of that table is right. */
  ghost predicate IsSlot(T: seq<Huft>, tree: Tree, t: nat, j: nat, w: nat, pat: nat, i: nat)
    requires t + Pow2(j) <= |T| && i < Pow2(j) && w < MaxLen(tree.lens)
    decreases |T| - t, 0
  {
    var e := T[t + i];
    var p := pat + Shl(i, w);
    var v := Pos(tree.lens, p);
    if LenAt(tree.lens, v) <= w + j then LeafOK(e, tree, w, v)
    else
      && j == tree.l
      && e.bits == tree.l
      && 0 < e.exop < 16
      && e.base > 0
      && t + i + e.base <= |T|
      && IsTable(T, tree, t + i + e.base, e.exop, w + tree.l, p)
  }

  // ----- Looking up

  /** Rounding down to a multiple of 2^d does not cross multiples of 2^d. */
  lemma FloorMultiple(q: nat, v: nat, m: nat, d: nat)
    requires Shr(v, d) == q
    ensures Shl(m, d) <= v <==> Shl(m, d) <= Shl(q, d)
  {
    ShrQuotient(v, d, q);
    ShlAdd(q, 1, d);
    if q < m { ShlMono(q, m, d); ShlMono(q + 1, m, d); } else { ShlMono(m, q, d); }
  }

  lemma EndMultiple(lens: Lengths, g: nat, k: nat, n: nat)
    requires 1 <= k <= n <= g
    ensures var m := Shl(NextCode(lens, k) + Count(lens, k), n - k);
            m >= 0 && End(lens, g, k) == Shl(m, g - n)
    ensures var m := Shl(NextCode(lens, k), n - k); m >= 0 && End(lens, g, k - 1) == Shl(m, g - n)
  {
    var a, c := NextCode(lens, k), Count(lens, k);
    NextCodeIsEnd(lens, g, k);
    ShlAdd(a, c, g - k);
    ShlShl(a + c, n - k, g - n);
    ShlShl(a, n - k, g - n);
  }

  lemma RankAtIs(lens: Lengths, v: nat)
    requires MaxLen(lens) > 0
    ensures var k := LenAt(lens, v);
            RankAt(lens, v) == Shr(v, MaxLen(lens) - k) - NextCode(lens, k)
  {
    var k := LenAt(lens, v);
    NextCodeIsEnd(lens, MaxLen(lens), k);
    ShrSub(v, NextCode(lens, k), MaxLen(lens) - k);
  }

  /** Two positions that agree down to bit `g - n` are covered by the same code, if either is
    * covered by a code of at most `n` bits. */
  lemma SameCode(lens: Lengths, u: nat, v: nat, n: nat)
    requires 0 < n <= MaxLen(lens)
    requires Shr(u, MaxLen(lens) - n) == Shr(v, MaxLen(lens) - n)
    requires LenAt(lens, u) <= n
    ensures LenAt(lens, v) == LenAt(lens, u) && SymbolAt(lens, v) == SymbolAt(lens, u)
  {
    hide Shl, Shr, Rev, Low, End, NextCode, Count, Nth, LenFrom, MaxLen;
    var g, k := MaxLen(lens), LenAt(lens, u);
    var q := Shr(u, g - n);
    EndMultiple(lens, g, k, n);
    var hi, lo := Shl(NextCode(lens, k) + Count(lens, k), n - k), Shl(NextCode(lens, k), n - k);
    FloorMultiple(q, u, hi, g - n);
    FloorMultiple(q, v, hi, g - n);
    FloorMultiple(q, u, lo, g - n);
    FloorMultiple(q, v, lo, g - n);
    LenAtUnique(lens, v, k);
    RankAtIs(lens, u);
    RankAtIs(lens, v);
    ShrShr(u, g - n, n - k);
    ShrShr(v, g - n, n - k);
  }

  /** The position of a stream and of its first `n` bits agree down to bit `g - n`. */
  lemma PrefixPos(lens: Lengths, x: nat, n: nat)
    requires n <= MaxLen(lens)
    ensures Shr(Pos(lens, Low(x, n)), MaxLen(lens) - n) == Shr(Pos(lens, x), MaxLen(lens) - n)
    ensures Pos(lens, Low(x, n)) <= Pos(lens, x) < Pos(lens, Low(x, n)) + Pow2(MaxLen(lens) - n)
  {
    hide Shl, Shr, Rev, Low, MaxLen;
    var g := MaxLen(lens);
    RevPrefix(n, g - n, x);
    RevPrefix(n, g - n, Low(x, n));
    RevLow(n, n, x);
    RevSplit(n, g - n, x);
    RevSplit(n, g - n, Low(x, n));
    LowBound(x, n);
    LowSmall(Low(x, n), n);
    RevZero(g - n);
    RevBound(g - n, Shr(x, n));
  }

  /** One table lookup: the entry reached by stream `x` either ends the code of `x` or links
    * to the table for a longer prefix of `x`. */
  lemma Lookup(T: seq<Huft>, tree: Tree, t: nat, j: nat, w: nat, x: nat)
    requires IsTable(T, tree, t, j, w, Low(x, w))
    ensures t + Low(Shr(x, w), j) < |T|
    ensures var i := Low(Shr(x, w), j);
            var v := Pos(tree.lens, x);
            var e := T[t + i];
            if LenAt(tree.lens, v) <= w + j then LeafOK(e, tree, w, v)
            else
              && j == tree.l
              && e.bits == tree.l
              && 0 < e.exop < 16
              && e.base > 0
              && t + i + e.base <= |T|
              && IsTable(T, tree, t + i + e.base, e.exop, w + tree.l, Low(x, w + tree.l))
  {
    hide Shl, Shr, Rev, Low, MaxLen, LenAt, SymbolAt;
    var i := Low(Shr(x, w), j);
    LowBound(Shr(x, w), j);
    assert IsSlot(T, tree, t, j, w, Low(x, w), i);
    LowSplit(x, w, j);
    var p := Low(x, w + j);
    assert p == Low(x, w) + Shl(i, w);
    PrefixPos(tree.lens, x, w + j);
    var u, v := Pos(tree.lens, p), Pos(tree.lens, x);
    if w + j > 0 {
      if LenAt(tree.lens, u) <= w + j {
        SameCode(tree.lens, u, v, w + j);
      } else if LenAt(tree.lens, v) <= w + j {
        SameCode(tree.lens, v, u, w + j);
      }
    }
  }

  datatype Walked = Walked(entry: Huft, dropped: nat)

  /** Following the tables along a stream, as the decoder does: look up, drop bits, follow
    * the link until an entry ends the code. */
  function Walk(T: seq<Huft>, t: nat, j: nat, x: nat): (r: Walked)
    decreases |T| - t
  {
    var i := Low(x, j);
    if t + i >= |T| then Walked(Huft(EXOP_INVALID, 0, 0), 0)
    else
      var e := T[t + i];
      if 0 < e.exop < 16 && 0 < e.base && t + i + e.base <= |T| then
        var rest := Walk(T, t + i + e.base, e.exop, Shr(x, e.bits));
        Walked(rest.entry, e.bits + rest.dropped)
      else Walked(e, e.bits)
  }

  lemma SymbolExopNotLink(al: Alphabet, s: nat)
    requires InAlphabet(al, s)
    requires forall i :: 0 <= i < |al.extras| ==> al.extras[i] < 176
    ensures var e := SymbolExop(al, s); e == 0 || e >= 16
  {
  }

  lemma {:induction false} WalkDecodes(T: seq<Huft>, tree: Tree, t: nat, j: nat, w: nat, x: nat)
    requires IsTable(T, tree, t, j, w, Low(x, w))
    requires forall i :: 0 <= i < |tree.alphabet.extras| ==> tree.alphabet.extras[i] < 176
    ensures var r, v := Walk(T, t, j, Shr(x, w)), Pos(tree.lens, x);
            LeafOK(Huft(r.entry.exop, r.dropped, r.entry.base), tree, w, v)
    decreases |T| - t
  {
    hide Shl, Shr, Rev, Low, MaxLen, LenAt, SymbolAt, IsTable;
    var i := Low(Shr(x, w), j);
    Lookup(T, tree, t, j, w, x);
    var e := T[t + i];
    var v := Pos(tree.lens, x);
    if LenAt(tree.lens, v) <= w + j {
      match SymbolAt(tree.lens, v) {
        case Symbol(s) => if s >= tree.alphabet.simple { SymbolExopNotLink(tree.alphabet, s); }
        case NoSymbol =>
      }
    } else {
      ShrShr(x, w, tree.l);
      WalkDecodes(T, tree, t + i + e.base, e.exop, w + tree.l, x);
    }
  }

  /** Walking the tables on a stream that starts with the code of `s` ends at the entry of
    * `s`, with exactly the code's bits dropped. */
  lemma WalkFindsSymbol(T: seq<Huft>, tree: Tree, t: nat, x: nat, s: nat)
    requires IsTable(T, tree, t, tree.l, 0, 0)
    requires forall i :: 0 <= i < |tree.alphabet.extras| ==> tree.alphabet.extras[i] < 176
    requires StartsWith(tree.lens, s, x)
    ensures var r := Walk(T, t, tree.l, x);
            && r.dropped == tree.lens[s]
            && InAlphabet(tree.alphabet, s)
            && r.entry.exop == SymbolExop(tree.alphabet, s)
            && r.entry.base == SymbolBase(tree.alphabet, s)
  {
    hide Shl, Rev, MaxLen, LenAt, SymbolAt, IsTable;
    WalkDecodes(T, tree, t, tree.l, 0, x) by { assert Low(x, 0) == 0; assert Shr(x, 0) == x; }
    assert Shr(x, 0) == x;
    DecodeIsRfc(tree.lens, x, s);
  }

  /** A stream that starts with no symbol's code ends at the invalid marker. */
  lemma WalkRejects(T: seq<Huft>, tree: Tree, t: nat, x: nat)
    requires IsTable(T, tree, t, tree.l, 0, 0)
    requires forall i :: 0 <= i < |tree.alphabet.extras| ==> tree.alphabet.extras[i] < 176
    requires forall s :: 0 <= s < |tree.lens| ==> !StartsWith(tree.lens, s, x)
    ensures Walk(T, t, tree.l, x).entry.exop == EXOP_INVALID
    ensures Walk(T, t, tree.l, x).dropped == MaxLen(tree.lens)
  {
    hide Shl, Rev, MaxLen, LenAt, SymbolAt, IsTable;
    WalkDecodes(T, tree, t, tree.l, 0, x) by { assert Low(x, 0) == 0; assert Shr(x, 0) == x; }
    assert Shr(x, 0) == x;
    match SymbolAt(tree.lens, Pos(tree.lens, x)) {
      case Symbol(s) => DecodeIsRfc(tree.lens, x, s);
      case NoSymbol => NoSymbolLongest(tree.lens, Pos(tree.lens, x));
    }
  }

  /** Positions no code covers are treated as codes of the longest length. */
  lemma NoSymbolLongest(lens: Lengths, v: nat)
    requires MaxLen(lens) > 0 && SymbolAt(lens, v) == NoSymbol
    ensures LenAt(lens, v) == MaxLen(lens)
  {
    hide Shl, Rev, MaxLen;
    var g, k := MaxLen(lens), LenAt(lens, v);
    if k < g {
      var c := Count(lens, k);
      var e := v - End(lens, g, k - 1);
      assert e < Shl(c, g - k);
      ShrQuotient(e, g - k, Shr(e, g - k));
      if Shr(e, g - k) >= c { ShlMono(c, Shr(e, g - k), g - k); }
    }
  }
}
