/** Compressed blocks in the words of section 3.2 of RFC 1951, and how far the machine agrees.
  *
  * Here a symbol is simply the one whose canonical code the stream starts with; there are no
  * tables, widths or levels.  What the decoder looks at while it reads the same symbols is told
  * apart from that: it looks up as many bits as a table is wide, and waits until it has them.
  */
module Rfc {
  import opened Bits
  import opened Canonical
  import opened HuftTables
  import opened HuftLabels
  import opened HuftBuild
  import opened InflateTrees
  import opened Deflate
  import opened DeflateRun
  import opened InfState
  import opened InfLookup
  import opened InfFast
  import opened InfBlock
  import opened InfBlocks
  import opened RfcNumbers

  datatype Token = Literal(b: byte) | EndOfBlock | Match(len: nat, dist: nat) | Invalid

  /** The symbol whose code the stream starts with. */
  ghost function FirstSymbol(lens: Lengths, x: nat): (d: Decoded)
    ensures d.Symbol? ==> StartsWith(lens, d.sym, x) && d.sym < |lens| && lens[d.sym] > 0
  {
    if exists s: nat :: StartsWith(lens, s, x) then
      var s: nat :| StartsWith(lens, s, x);
      Symbol(s)
    else NoSymbol
  }

  /** The distance at stream position `p`, and where it ends. */
  ghost function ReadDistance(S: nat, p: nat, dist: Lengths, len: nat): (r: (Token, nat))
    ensures r.1 >= p && (r.0.Invalid? || (r.0.Match? && r.0.len == len && r.0.dist > 0 && r.1 > p))
  {
    match FirstSymbol(dist, Shr(S, p))
    case Symbol(d) =>
      var q := p + dist[d];
      if d < 30 then (Match(len, DistanceBase(d) + Peek(S, q, DistanceExtra(d))), q + DistanceExtra(d)) else (Invalid, q)
    case NoSymbol => (Invalid, p + MaxLen(dist))
  }

  /** What is encoded at stream position `p`, and where it ends.  That no code fits is known once there
    * are as many bits as the longest code has. */
  ghost function ReadToken(S: nat, p: nat, lit: Lengths, dist: Lengths): (r: (Token, nat))
    ensures r.1 >= p && (r.0.Invalid? || r.1 > p) && (r.0.Match? ==> r.0.dist > 0)
  {
    match FirstSymbol(lit, Shr(S, p))
    case Symbol(s) =>
      var q := p + lit[s];
      if s < 256 then (Literal(s), q)
      else if s == 256 then (EndOfBlock, q)
      else if s < 286 then
        ReadDistance(S, q + LengthExtra(s - 257), dist, LengthBase(s - 257) + Peek(S, q, LengthExtra(s - 257)))
      else (Invalid, q)
    case NoSymbol => (Invalid, p + MaxLen(lit))
  }

  /** Each distance from 1 to 32768 is read from one symbol only, with one value of its extra bits, and no other
    * distance is read. */
  lemma DistanceReads(S: nat, p: nat, dist: Lengths, len: nat, d: nat) returns (i: nat, e: nat)
    requires 1 <= d <= 32768
    ensures IsDistance(i, e, d)
    ensures ReadDistance(S, p, dist, len).0 == Match(len, d) <==>
            FirstSymbol(dist, Shr(S, p)) == Symbol(i) && Peek(S, p + dist[i], DistanceExtra(i)) == e
  {
    hide FirstSymbol, Shr, DistanceBase, DistanceExtra, Peek, MaxLen;
    i, e := DistanceOnce(d);
    match FirstSymbol(dist, Shr(S, p)) {
      case Symbol(j) =>
        if j < 30 {
          var f := Peek(S, p + dist[j], DistanceExtra(j));
          assert IsDistance(j, f, DistanceBase(j) + f);
        }
      case NoSymbol =>
    }
  }

  /** Each length from 3 to 258 is read from one symbol only, with one value of its extra bits; and 258 also from
    * symbol 285. */
  lemma LengthReads(S: nat, p: nat, lit: Lengths, dist: Lengths, n: nat) returns (i: nat, e: nat)
    requires 3 <= n <= 258
    ensures i < 28 && IsLength(i, e, n)
    ensures var (t, d) := (ReadToken(S, p, lit, dist).0, FirstSymbol(lit, Shr(S, p)));
            t.Match? && t.len == n <==>
              && ((d == Symbol(257 + i) && Peek(S, p + lit[257 + i], LengthExtra(i)) == e) || (d == Symbol(285) && n == 258))
              && ReadDistance(S, p + lit[d.sym] + LengthExtra(d.sym - 257), dist, n).0.Match?
  {
    hide FirstSymbol, Shr, LengthBase, LengthExtra, Peek, MaxLen, ReadDistance;
    i, e := LengthOnce(n);
    LastLength(S, p, lit);
    match FirstSymbol(lit, Shr(S, p)) {
      case Symbol(s) =>
        if 257 <= s < 286 {
          var f := Peek(S, p + lit[s], LengthExtra(s - 257));
          assert IsLength(s - 257, f, LengthBase(s - 257) + f);
        }
      case NoSymbol =>
    }
  }

  lemma LastLength(S: nat, p: nat, lit: Lengths)
    ensures LengthBase(28) == 258 && LengthExtra(28) == 0 && forall q :: Peek(S, q, 0) == 0
  {
  }

  /** No other lengths and distances are read. */
  lemma MatchRange(S: nat, p: nat, lit: Lengths, dist: Lengths)
    ensures var t := ReadToken(S, p, lit, dist).0; t.Match? ==> 3 <= t.len <= 258 && 1 <= t.dist <= 32768
  {
    hide FirstSymbol, Shr, LengthBase, LengthExtra, DistanceBase, DistanceExtra, Peek, MaxLen;
    var d := FirstSymbol(lit, Shr(S, p));
    if d.Symbol? && 257 <= d.sym < 286 {
      LengthMost(d.sym - 257);
      var c := FirstSymbol(dist, Shr(S, p + lit[d.sym] + LengthExtra(d.sym - 257)));
      if c.Symbol? && c.sym < 30 { DistanceMost(c.sym); }
    }
  }

  /** `n` times the byte `d` back. */
  function CopyBytes(hist: seq<byte>, d: nat, n: nat): (r: seq<byte>)
    requires 0 < d <= |hist|
    ensures |r| == |hist| + n && hist <= r
    ensures forall i :: |hist| <= i < |r| ==> r[i] == r[i - d]
    decreases n
  {
    if n == 0 then hist else CopyBytes(hist + [hist[|hist| - d]], d, n - 1)
  }

  /** A distance goes back at most to the first byte of output, and no further than the window. */
  predicate Allowed(W: nat, out: seq<byte>, t: Token) {
    t.Match? ==> t.dist <= |out| && t.dist <= W
  }

  /** The output after a token. */
  function Emitted(W: nat, out: seq<byte>, t: Token): (r: seq<byte>)
    requires Allowed(W, out, t) && (t.Match? ==> t.dist > 0)
    ensures out <= r
  {
    match t
    case Literal(b) => out + [b]
    case Match(len, dist) => CopyBytes(out, dist, len)
    case _ => out
  }

  /** What the decoder does, which does not check distances: the history after a token. */
  function Emit(W: nat, hist: seq<byte>, t: Token): (r: seq<byte>)
    requires 0 < W <= |hist| && (t.Match? ==> t.dist > 0)
    ensures hist <= r
  {
    match t
    case Literal(b) => hist + [b]
    case Match(len, dist) => CopyBytes(hist, BackDistance(W, dist), len)
    case _ => hist
  }

  lemma BackDistanceIs(W: nat, dist: nat)
    requires 0 < W && 0 < dist
    ensures BackDistance(W, dist) == dist <==> dist <= W
  {
  }

  /** A copy takes the bytes that the distance means, and these are output of this stream, if and only if
    * the distance is allowed. */
  lemma CopyIsOutput(W: nat, init: seq<byte>, out: seq<byte>, t: Token)
    requires 0 < W == |init| && t.Match? && t.len > 0 && t.dist > 0
    ensures var h, h' := init + out, Emit(W, init + out, t);
            var d := BackDistance(W, t.dist);
            && |h'| == |h| + t.len && h <= h' && 0 < d <= |h|
            && (forall i :: |h| <= i < |h'| ==> h'[i] == h'[i - d])
            && (Allowed(W, out, t) <==> d == t.dist && forall k :: |h| - d <= k < |h'| - d ==> IsOutput(init, k))
  {
    BackDistanceIs(W, t.dist);
    var d := BackDistance(W, t.dist);
    assert IsOutput(init, |init + out| - d) ==> d <= |out|;
  }

  /** Position `k` of the history is output, not the window's initial content. */
  predicate IsOutput(init: seq<byte>, k: nat) {
    k >= |init|
  }

  /** With allowed distances the decoder appends what RFC 1951 says. */
  lemma EmitIsRfc(W: nat, init: seq<byte>, out: seq<byte>, t: Token)
    requires 0 < W == |init| && (t.Match? ==> t.dist > 0) && Allowed(W, out, t)
    ensures Emit(W, init + out, t) == init + Emitted(W, out, t)
  {
    hide BackDistance;
    match t {
      case Literal(b) => assert init + out + [b] == init + (out + [b]);
      case Match(len, dist) =>
        BackDistanceIs(W, dist);
        CopyAfter(init, out, dist, len);
      case _ =>
    }
  }

  lemma {:induction false} CopyAfter(init: seq<byte>, out: seq<byte>, d: nat, n: nat)
    requires 0 < d <= |out|
    ensures CopyBytes(init + out, d, n) == init + CopyBytes(out, d, n)
    decreases n
  {
    if n > 0 {
      var c := out[|out| - d];
      assert (init + out)[|init + out| - d] == c;
      assert init + out + [c] == init + (out + [c]);
      CopyAfter(init, out + [c], d, n - 1);
    }
  }

  // ----- How far the decoder looks

  function Most(x: nat, y: nat): nat {
    if x >= y then x else y
  }

  /** The bits looked at, from level `w` on, until a table decides the symbol of stream `x`. */
  function Seen(tree: Tree, w: nat, x: nat): (r: nat)
    requires w < MaxLen(tree.lens)
    ensures r >= w
    decreases MaxLen(tree.lens) - w
  {
    if Decided(tree, w, x) || tree.l == 0 || w + tree.l >= MaxLen(tree.lens) then Lookahead(tree, w, x)
    else Seen(tree, w + tree.l, x)
  }

  /** How far the decoder looks for the symbol at position `p`. */
  function LookedSymbol(S: nat, p: nat, tree: Tree): nat {
    if MaxLen(tree.lens) == 0 then p else p + Seen(tree, 0, Shr(S, p))
  }

  ghost function LookedDistance(S: nat, p: nat, dist: Tree): nat {
    Most(LookedSymbol(S, p, dist), ReadDistance(S, p, dist.lens, 0).1)
  }

  /** How far it looks for the token there. */
  ghost function Looked(S: nat, p: nat, lit: Tree, dist: Tree): nat {
    match FirstSymbol(lit.lens, Shr(S, p))
    case Symbol(s) =>
      if 257 <= s < 286 then Most(LookedSymbol(S, p, lit), LookedDistance(S, p + lit.lens[s] + LengthExtra(s - 257), dist))
      else LookedSymbol(S, p, lit)
    case NoSymbol => LookedSymbol(S, p, lit)
  }

  /** Level by level the decoder looks further, and at the last no further than it has to. */
  lemma SeenNext(tree: Tree, w: nat, x: nat)
    requires GoodTree(tree) && w < MaxLen(tree.lens) && IsLevel(tree.l, w)
    ensures Lookahead(tree, w, x) <= Seen(tree, w, x) && Lookahead(tree, w, x) <= w + tree.l && tree.l > 0
    ensures Decided(tree, w, x) ==> Seen(tree, w, x) == Lookahead(tree, w, x)
    ensures !Decided(tree, w, x) ==> && w + tree.l < MaxLen(tree.lens) && IsLevel(tree.l, w + tree.l)
                                     && w + tree.l < CodeBits(tree, x)
                                     && Seen(tree, w, x) == Seen(tree, w + tree.l, x)
  {
    hide Shl, Shr, Low, Rev, MaxLen, LenAt, TableBits, Shallow;
    LookupWidth(tree, w, x);
    if !Decided(tree, w, x) {
      UndecidedLevel(tree, w, x);
      TableCoversX(tree, x, w);
    }
  }

  lemma {:induction false} SeenBound(tree: Tree, w: nat, x: nat)
    requires GoodTree(tree) && w < MaxLen(tree.lens) && IsLevel(tree.l, w) && w < CodeBits(tree, x)
    ensures CodeBits(tree, x) <= Seen(tree, w, x) < CodeBits(tree, x) + tree.l
    decreases MaxLen(tree.lens) - w
  {
    hide Shl, Shr, Low, Rev, MaxLen, LenAt, TableBits, Shallow, IsLevel, Seen;
    SeenNext(tree, w, x);
    if !Decided(tree, w, x) { SeenBound(tree, w + tree.l, x); }
  }

  lemma FirstSymbolIs(lens: Lengths, x: nat)
    requires MaxLen(lens) > 0
    ensures FirstSymbol(lens, x) == SymbolAt(lens, Pos(lens, x))
  {
    hide MaxLen, SymbolAt, StartsWith;
    forall s: nat ensures StartsWith(lens, s, x) <==> SymbolAt(lens, Pos(lens, x)) == Symbol(s) {
      DecodeIsRfc(lens, x, s);
    }
    if SymbolAt(lens, Pos(lens, x)).Symbol? {
      assert StartsWith(lens, SymbolAt(lens, Pos(lens, x)).sym, x);
    }
  }

  // ----- The machine's way through one symbol

  /** From `a` the machine comes to wait for input, with nothing more put out. */
  ghost predicate Waits(S: nat, W: nat, limit: nat, a: State)
    requires Good(W, a)
  {
    exists b :: Reaches(S, W, limit, a, b) && Starved(S, W, limit, b) && b.hist == a.hist
  }

  lemma WaitsHere(S: nat, W: nat, limit: nat, a: State)
    requires Good(W, a) && !Terminal(a) && a.pos + Need(S, W, a) > 8 * limit
    ensures Waits(S, W, limit, a)
  {
    hide Good, Reaches, Need, Terminal;
    ReachesRefl(S, W, limit, a);
    assert Starved(S, W, limit, a);
  }

  lemma WaitsLater(S: nat, W: nat, limit: nat, a: State, b: State)
    requires Good(W, a) && Reaches(S, W, limit, a, b) && Good(W, b) && b.hist == a.hist && Waits(S, W, limit, b)
    ensures Waits(S, W, limit, a)
  {
    hide Good, Reaches, Starved;
    var c :| Reaches(S, W, limit, b, c) && Starved(S, W, limit, c) && c.hist == b.hist;
    ReachesTrans(S, W, limit, a, b, c);
  }

  /** Looking up level by level finds the entry of the symbol and drops its code's bits, if all bits
    * looked at are there; and otherwise waits. */
  lemma {:induction false} LiteralLevels(S: nat, W: nat, limit: nat, a: State)
    requires Good(W, a) && a.block.InCodes? && a.block.codes.Len?
    ensures GoodTree(a.block.lit) && a.block.codes.w < MaxLen(a.block.lit.lens)
    ensures var x := Shr(S, a.pos);
            if a.pos + Seen(a.block.lit, a.block.codes.w, x) > 8 * limit then Waits(S, W, limit, a)
            else
              var (exop, base) := SymbolEntry(a.block.lit, x);
              Reaches(S, W, limit, a, a.(pos := a.pos + CodeBits(a.block.lit, x),
                                         block := a.block.(codes := LiteralAction(exop, base))))
    decreases MaxLen(a.block.lit.lens) - a.block.codes.w
  {
    hide Shl, Shr, Low, Rev, MaxLen, LenAt, SymbolAt, Next, Need, Good, Enabled, Reaches, LiteralAction, SymbolEntry, TableBits,
      Shallow, GoodTree, Seen, IsLevel, Decided, Lookahead, Waits;
    var lit, w := a.block.lit, a.block.codes.w;
    SilentStep(S, W, a);
    var x := Shr(S, a.pos);
    LiteralLevel(a.block.lit, a.block.dist, w);
    SeenNext(lit, w, x);
    if a.pos + Lookahead(lit, w, x) > 8 * limit {
      WaitsHere(S, W, limit, a);
    } else {
      OneStep(S, W, limit, a);
      var b := Next(S, W, a);
      if !Decided(lit, w, x) {
        LiteralLevels(S, W, limit, b);
        var (exop, base) := SymbolEntry(lit, x);
        if a.pos + Seen(lit, w, x) > 8 * limit {
          WaitsLater(S, W, limit, a, b);
        } else {
          ReachesTrans(S, W, limit, a, b, b.(pos := a.pos + CodeBits(lit, x), block := a.block.(codes := LiteralAction(exop, base))));
        }
      }
    }
  }

  lemma LiteralLevel(lit: Tree, dist: Tree, w: nat)
    requires GoodCodes(lit, dist, Len(w))
    ensures GoodTree(lit) && w < MaxLen(lit.lens) && IsLevel(lit.l, w)
    ensures forall s :: 0 <= s < |lit.lens| ==> InAlphabet(lit.alphabet, s)
  {
    hide Shallow, MaxLen, IsLevel;
  }

  lemma DistanceLevel(lit: Tree, dist: Tree, len: nat, w: nat)
    requires GoodCodes(lit, dist, Dist(len, w))
    ensures GoodTree(dist) && w < MaxLen(dist.lens) && IsLevel(dist.l, w)
    ensures forall s :: 0 <= s < |dist.lens| ==> InAlphabet(dist.alphabet, s)
  {
    hide Shallow, MaxLen, IsLevel;
  }

  lemma {:induction false} DistanceLevels(S: nat, W: nat, limit: nat, a: State)
    requires Good(W, a) && a.block.InCodes? && a.block.codes.Dist?
    ensures GoodTree(a.block.dist) && a.block.codes.w < MaxLen(a.block.dist.lens)
    ensures var x := Shr(S, a.pos);
            if a.pos + Seen(a.block.dist, a.block.codes.w, x) > 8 * limit then Waits(S, W, limit, a)
            else
              var (exop, base) := SymbolEntry(a.block.dist, x);
              Reaches(S, W, limit, a, a.(pos := a.pos + CodeBits(a.block.dist, x),
                                         block := a.block.(codes := DistanceAction(a.block.codes.len, exop, base))))
    decreases MaxLen(a.block.dist.lens) - a.block.codes.w
  {
    hide Shl, Shr, Low, Rev, MaxLen, LenAt, SymbolAt, Next, Need, Good, Enabled, Reaches, DistanceAction, SymbolEntry, TableBits,
      Shallow, GoodTree, Seen, IsLevel, Decided, Lookahead, Waits;
    var dist, w, len := a.block.dist, a.block.codes.w, a.block.codes.len;
    SilentStep(S, W, a);
    var x := Shr(S, a.pos);
    DistanceLevel(a.block.lit, a.block.dist, len, w);
    SeenNext(dist, w, x);
    if a.pos + Lookahead(dist, w, x) > 8 * limit {
      WaitsHere(S, W, limit, a);
    } else {
      OneStep(S, W, limit, a);
      var b := Next(S, W, a);
      if !Decided(dist, w, x) {
        DistanceLevels(S, W, limit, b);
        var (exop, base) := SymbolEntry(dist, x);
        if a.pos + Seen(dist, w, x) > 8 * limit {
          WaitsLater(S, W, limit, a, b);
        } else {
          ReachesTrans(S, W, limit, a, b, b.(pos := a.pos + CodeBits(dist, x), block := a.block.(codes := DistanceAction(len, exop, base))));
        }
      }
    }
  }

  /** One step of the machine that can be taken. */
  lemma OneStep(S: nat, W: nat, limit: nat, a: State)
    requires Good(W, a) && !Terminal(a) && a.pos + Need(S, W, a) <= 8 * limit
    ensures Good(W, Next(S, W, a)) && Reaches(S, W, limit, a, Next(S, W, a))
  {
    hide Good, Next, Need, Reaches, Terminal;
    ReachesRefl(S, W, limit, a);
    ReachesNext(S, W, limit, a, a);
    NextGood(S, W, a);
  }

  lemma CodesLevel(W: nat, a: State)
    requires Good(W, a) && a.block.InCodes?
    ensures GoodTree(a.block.lit) && a.block.lit.alphabet == LITERALS && a.block.dist.alphabet == DISTANCES
    ensures |a.block.lit.lens| > 257 || a.block.codes.LenExt? ==> GoodTree(a.block.dist)
    ensures 0 < W <= |a.hist|
  {
    hide GoodTree;
  }

  /** From the start of a symbol to what its table entry says. */
  lemma StartSymbol(S: nat, W: nat, limit: nat, a: State)
    requires Good(W, a) && a.block.InCodes? && a.block.codes.Start? && a.pos <= 8 * limit
    ensures GoodTree(a.block.lit)
    ensures if LookedSymbol(S, a.pos, a.block.lit) > 8 * limit then Waits(S, W, limit, a)
            else
              var x := Shr(S, a.pos);
              var (exop, base) := SymbolEntry(a.block.lit, x);
              var b := a.(pos := a.pos + CodeBits(a.block.lit, x), block := a.block.(codes := LiteralAction(exop, base)));
              Reaches(S, W, limit, a, b) && Good(W, b)
  {
    hide Shl, Shr, Low, Rev, MaxLen, LenAt, SymbolAt, Next, Need, Good, Enabled, Reaches, LiteralAction, SymbolEntry, TableBits,
      Shallow, Seen, Waits;
    SilentStep(S, W, a);
    OneStep(S, W, limit, a);
    var a1 := a.(block := a.block.(codes := Len(0)));
    LiteralLevels(S, W, limit, a1);
    if LookedSymbol(S, a.pos, a.block.lit) > 8 * limit {
      WaitsLater(S, W, limit, a, a1);
    } else {
      var x := Shr(S, a.pos);
      var (exop, base) := SymbolEntry(a.block.lit, x);
      var b := a.(pos := a.pos + CodeBits(a.block.lit, x), block := a.block.(codes := LiteralAction(exop, base)));
      ReachesTrans(S, W, limit, a, a1, b);
      ReachesNext(S, W, limit, a, b);
    }
  }

  /** From the extra bits of a length to what the distance's table entry says. */
  lemma LengthBits(S: nat, W: nat, limit: nat, a: State)
    requires Good(W, a) && a.block.InCodes? && a.block.codes.LenExt?
    ensures GoodTree(a.block.dist)
    ensures var LenExt(base, get) := a.block.codes;
            var q := a.pos + get;
            if LookedSymbol(S, q, a.block.dist) > 8 * limit then Waits(S, W, limit, a)
            else
              var x := Shr(S, q);
              var (exop, dbase) := SymbolEntry(a.block.dist, x);
              var b := a.(pos := q + CodeBits(a.block.dist, x),
                          block := a.block.(codes := DistanceAction(base + Peek(S, a.pos, get), exop, dbase)));
              Reaches(S, W, limit, a, b) && Good(W, b)
  {
    hide Shl, Shr, Low, Rev, MaxLen, LenAt, SymbolAt, Next, Need, Good, Enabled, Reaches, DistanceAction, SymbolEntry, TableBits,
      Shallow, Seen, Waits, Peek;
    var LenExt(base, get) := a.block.codes;
    SilentStep(S, W, a);
    CodesLevel(W, a);
    if a.pos + get > 8 * limit {
      WaitsHere(S, W, limit, a);
    } else {
      OneStep(S, W, limit, a);
      var q, len := a.pos + get, base + Peek(S, a.pos, get);
      var a1 := a.(pos := q, block := a.block.(codes := Dist(len, 0)));
      DistanceLevels(S, W, limit, a1);
      if LookedSymbol(S, q, a.block.dist) > 8 * limit {
        WaitsLater(S, W, limit, a, a1);
      } else {
        var x := Shr(S, q);
        var (exop, dbase) := SymbolEntry(a.block.dist, x);
        var b := a.(pos := q + CodeBits(a.block.dist, x), block := a.block.(codes := DistanceAction(len, exop, dbase)));
        ReachesTrans(S, W, limit, a, a1, b);
        ReachesNext(S, W, limit, a, b);
      }
    }
  }

  lemma CopyNext(S: nat, W: nat, a: State)
    requires Good(W, a) && a.block.InCodes? && a.block.codes.Copy?
    ensures a.block.codes.dist > 0 && 0 < W <= |a.hist| && Need(S, W, a) == 0
    ensures var Copy(len, dist) := a.block.codes;
            Next(S, W, a) == if len > 0 then a.(hist := a.hist + [a.hist[|a.hist| - BackDistance(W, dist)]],
                                                block := a.block.(codes := Copy(len - 1, dist)))
                             else a.(block := a.block.(codes := Start))
  {
    hide MaxLen, GoodTree, BackDistance;
  }

  /** A copy puts its bytes out one by one. */
  lemma {:induction false} CopyRun(S: nat, W: nat, limit: nat, a: State)
    requires Good(W, a) && a.block.InCodes? && a.block.codes.Copy? && a.pos <= 8 * limit
    ensures a.block.codes.dist > 0 && 0 < W <= |a.hist|
    ensures var b := a.(hist := CopyBytes(a.hist, BackDistance(W, a.block.codes.dist), a.block.codes.len),
                        block := a.block.(codes := Start));
            Reaches(S, W, limit, a, b) && Good(W, b)
    decreases a.block.codes.len
  {
    hide Good, Next, Enabled, Reaches, BackDistance;
    var Copy(len, dist) := a.block.codes;
    CopyNext(S, W, a);
    OneStep(S, W, limit, a);
    var d := BackDistance(W, dist);
    if len > 0 {
      var a1 := Next(S, W, a);
      CopyRun(S, W, limit, a1);
      ReachesTrans(S, W, limit, a, a1, a.(hist := CopyBytes(a.hist, d, len), block := a.block.(codes := Start)));
    }
  }

  /** From the extra bits of a distance to the end of the copy. */
  lemma DistanceBits(S: nat, W: nat, limit: nat, a: State)
    requires Good(W, a) && a.block.InCodes? && a.block.codes.DistExt?
    requires a.pos + a.block.codes.get <= 8 * limit
    ensures a.block.codes.dist > 0 && 0 < W <= |a.hist|
    ensures var DistExt(len, base, get) := a.block.codes;
            var dist := base + Peek(S, a.pos, get);
            var b := a.(pos := a.pos + get, hist := CopyBytes(a.hist, BackDistance(W, dist), len),
                        block := a.block.(codes := Start));
            Reaches(S, W, limit, a, b) && Good(W, b)
  {
    hide Shl, Shr, Low, Rev, MaxLen, LenAt, SymbolAt, Next, Need, Enabled, Reaches, BackDistance, TableBits, GoodTree, Peek;
    SilentStep(S, W, a);
    OneStep(S, W, limit, a);
    var DistExt(len, base, get) := a.block.codes;
    var dist := base + Peek(S, a.pos, get);
    var a1 := a.(pos := a.pos + get, block := a.block.(codes := Copy(len, dist)));
    CopyRun(S, W, limit, a1);
    ReachesTrans(S, W, limit, a, a1, a1.(hist := CopyBytes(a.hist, BackDistance(W, dist), len),
                                         block := a.block.(codes := Start)));
  }

  lemma LiteralActionIs(s: nat)
    requires InAlphabet(LITERALS, s)
    ensures LiteralAction(SymbolExop(LITERALS, s), SymbolBase(LITERALS, s)) ==
            if s < 256 then Lit(s) else if s == 256 then Wash
            else if s < 286 then LenExt(LengthBase(s - 257), LengthExtra(s - 257)) else BadCode
  {
    hide CPLENS, CPLEXT, Pow2, LengthBase, LengthExtra;
    LiteralCodes();
    if s >= 257 {
      LengthExtras(s - 257);
      UnusedLengths(s - 257);
      if s < 286 { LengthList(s - 257); }
    }
    LengthAction(LITERALS, s);
  }

  lemma LiteralCodes()
    ensures |CPLENS| == |CPLEXT| == 31
  {
  }

  lemma LengthAction(al: Alphabet, s: nat)
    requires al.simple == 257 && InAlphabet(al, s)
    requires s >= 257 ==> al.extras[s - 257] <= 5 || al.extras[s - 257] == 112
    ensures LiteralAction(SymbolExop(al, s), SymbolBase(al, s)) ==
            if s < 256 then Lit(s) else if s == 256 then Wash
            else if al.extras[s - 257] == 112 then BadCode else LenExt(al.bases[s - 257], al.extras[s - 257])
  {
  }

  lemma UnusedLengths(i: nat)
    requires i < |CPLEXT|
    ensures CPLEXT[i] == 112 <==> i >= 29
  {
  }

  lemma DistanceCodes()
    ensures |CPDIST| == |CPDEXT| == 30 && forall i :: 0 <= i < 30 ==> CPDIST[i] > 0
  {
  }

  lemma ExtraAction(al: Alphabet, len: nat, s: nat)
    requires al.simple == 0 && InAlphabet(al, s) && al.extras[s] <= 13
    ensures DistanceAction(len, SymbolExop(al, s), SymbolBase(al, s)) == DistExt(len, al.bases[s], al.extras[s])
  {
  }

  lemma DistanceActionIs(len: nat, s: nat)
    requires InAlphabet(DISTANCES, s)
    ensures s < 30 && DistanceAction(len, SymbolExop(DISTANCES, s), SymbolBase(DISTANCES, s)) == DistExt(len, DistanceBase(s), DistanceExtra(s))
  {
    hide CPDIST, CPDEXT, Pow2, DistanceBase, DistanceExtra;
    DistanceCodes();
    DistanceExtras(s);
    DistanceList(s);
    ExtraAction(DISTANCES, len, s);
  }

  /** What the machine makes of a token. */
  ghost predicate Does(S: nat, W: nat, limit: nat, a: State, t: Token, end: nat)
    requires Good(W, a) && a.block.InCodes?
  {
    match t
    case Invalid =>
      exists p: nat :: Reaches(S, W, limit, a, a.(pos := p, block := a.block.(codes := BadCode)))
    case EndOfBlock =>
      Reaches(S, W, limit, a, a.(pos := end, block := a.block.(codes := Wash)))
    case Literal(_) =>
      && 0 < W <= |a.hist|
      && Reaches(S, W, limit, a, a.(pos := end, hist := Emit(W, a.hist, t), block := a.block.(codes := Start)))
    case Match(_, dist) =>
      && 0 < W <= |a.hist| && dist > 0
      && Reaches(S, W, limit, a, a.(pos := end, hist := Emit(W, a.hist, t), block := a.block.(codes := Start)))
  }

  /** From the extra bits of a distance on, reached from `a`. */
  lemma CopyToken(S: nat, W: nat, limit: nat, a: State, a1: State)
    requires Good(W, a) && a.block.InCodes? && Reaches(S, W, limit, a, a1) && Good(W, a1)
    requires a1.block.InCodes? && a1.block.codes.DistExt?
    requires a1 == a.(pos := a1.pos, block := a.block.(codes := a1.block.codes))
    ensures var DistExt(len, base, get) := a1.block.codes;
            if a1.pos + get > 8 * limit then Waits(S, W, limit, a)
            else Does(S, W, limit, a, Match(len, base + Peek(S, a1.pos, get)), a1.pos + get)
  {
    hide Good, Reaches, BackDistance, Peek, Waits, Need, Next, Terminal, NextSymbol;
    var DistExt(len, base, get) := a1.block.codes;
    if a1.pos + get > 8 * limit {
      SilentStep(S, W, a1);
      OpenEnded(a1);
      WaitsHere(S, W, limit, a1);
      WaitsLater(S, W, limit, a, a1);
    } else {
      DistanceBits(S, W, limit, a1);
      var dist := base + Peek(S, a1.pos, get);
      ReachesTrans(S, W, limit, a, a1, a1.(pos := a1.pos + get, hist := CopyBytes(a1.hist, BackDistance(W, dist), len),
                                           block := a1.block.(codes := Start)));
    }
  }

  lemma OpenEnded(a: State)
    ensures a.block.InCodes? && !a.block.codes.BadCode? ==> !Terminal(a)
  {
  }

  /** From the extra bits of a length, the machine decodes the distance and copies. */
  lemma MatchStep(S: nat, W: nat, limit: nat, a: State)
    requires Good(W, a) && a.block.InCodes? && a.block.codes.LenExt?
    ensures var LenExt(base, get) := a.block.codes;
            var (t, end) := ReadDistance(S, a.pos + get, a.block.dist.lens, base + Peek(S, a.pos, get));
            if LookedDistance(S, a.pos + get, a.block.dist) > 8 * limit then Waits(S, W, limit, a)
            else Does(S, W, limit, a, t, end)
  {
    hide Shl, Shr, Low, Rev, MaxLen, LenAt, SymbolAt, Next, Need, Enabled, Reaches, BackDistance, TableBits, Peek,
      Shallow, FirstSymbol, SymbolExop, SymbolBase, DistanceAction, DistanceBase, DistanceExtra, Good, Waits, LookedSymbol;
    var LenExt(base, get) := a.block.codes;
    var q, len := a.pos + get, base + Peek(S, a.pos, get);
    var dist := a.block.dist;
    var x := Shr(S, q);
    CodesLevel(W, a);
    LengthBits(S, W, limit, a);
    FirstSymbolIs(dist.lens, x);
    SymbolEnds(S, q, dist);
    if LookedSymbol(S, q, dist) <= 8 * limit {
      match SymbolAt(dist.lens, Pos(dist.lens, x)) {
        case Symbol(d) =>
          assert InAlphabet(dist.alphabet, d);
          DistanceActionIs(len, d);
          var a1 := a.(pos := q + dist.lens[d], block := a.block.(codes := DistExt(len, DistanceBase(d), DistanceExtra(d))));
          CopyToken(S, W, limit, a, a1);
        case NoSymbol =>
          BadDistance(len);
      }
    }
  }

  /** A symbol ends among the bits looked at for it, of which at most eight are not its own. */
  lemma SymbolEnds(S: nat, p: nat, tree: Tree)
    requires GoodTree(tree)
    ensures var d := FirstSymbol(tree.lens, Shr(S, p));
            var end := p + if d.Symbol? then tree.lens[d.sym] else MaxLen(tree.lens);
            end <= LookedSymbol(S, p, tree) <= end + 8 && end == p + CodeBits(tree, Shr(S, p))
  {
    hide Shl, Shr, Low, Rev, MaxLen, LenAt, SymbolAt, FirstSymbol, Seen, Shallow;
    var x := Shr(S, p);
    FirstSymbolIs(tree.lens, x);
    SeenBound(tree, 0, x);
    match SymbolAt(tree.lens, Pos(tree.lens, x)) {
      case Symbol(s) => SymbolLength(tree, x);
      case NoSymbol => NoSymbolLongest(tree.lens, Pos(tree.lens, x));
    }
  }

  lemma SymbolLength(tree: Tree, x: nat)
    requires 0 < MaxLen(tree.lens) && SymbolAt(tree.lens, Pos(tree.lens, x)).Symbol?
    ensures var s := SymbolAt(tree.lens, Pos(tree.lens, x)).sym;
            s < |tree.lens| && CodeBits(tree, x) == tree.lens[s] && LengthSymbol(tree, x) == s
  {
    hide MaxLen, LenAt;
  }

  lemma LookedDistanceEnds(S: nat, p: nat, dist: Tree, len: nat)
    requires GoodTree(dist)
    ensures var end := ReadDistance(S, p, dist.lens, len).1; end <= LookedDistance(S, p, dist) <= end + 8
  {
    hide FirstSymbol, Shr, MaxLen, Shallow, LookedSymbol, CodeBits, DistanceBase, DistanceExtra, Peek;
    SymbolEnds(S, p, dist);
    DistanceCodes();
  }

  /** So does a token. */
  lemma TokenEnds(S: nat, p: nat, lit: Tree, dist: Tree)
    requires GoodTree(lit) && (|lit.lens| > 257 ==> GoodTree(dist))
    ensures var end := ReadToken(S, p, lit.lens, dist.lens).1; end <= Looked(S, p, lit, dist) <= end + 8
  {
    hide FirstSymbol, Shr, MaxLen, Shallow, LookedSymbol, CodeBits, LengthBase, LengthExtra, Peek, ReadDistance, LookedDistance, GoodTree;
    SymbolEnds(S, p, lit);
    LiteralCodes();
    var d := FirstSymbol(lit.lens, Shr(S, p));
    if d.Symbol? && 257 <= d.sym < 286 {
      var q := p + lit.lens[d.sym];
      LookedDistanceEnds(S, q + LengthExtra(d.sym - 257), dist, LengthBase(d.sym - 257) + Peek(S, q, LengthExtra(d.sym - 257)));
    }
  }

  lemma BadDistance(len: nat)
    ensures DistanceAction(len, EXOP_INVALID, 0) == BadCode && LiteralAction(EXOP_INVALID, 0) == BadCode
  {
  }

  /** From the start of a symbol the machine does what RFC 1951 says is encoded there, if all the bits it
    * looks at are there; and otherwise it waits. */
  lemma TokenStep(S: nat, W: nat, limit: nat, a: State)
    requires Good(W, a) && a.block.InCodes? && a.block.codes.Start? && a.pos <= 8 * limit
    ensures var (t, end) := ReadToken(S, a.pos, a.block.lit.lens, a.block.dist.lens);
            var looked := Looked(S, a.pos, a.block.lit, a.block.dist);
            && end <= looked <= end + 8
            && if looked > 8 * limit then Waits(S, W, limit, a) else Does(S, W, limit, a, t, end)
  {
    hide Shl, Shr, Low, Rev, MaxLen, LenAt, SymbolAt, Next, Need, Enabled, Reaches, BackDistance, TableBits, Peek, Good,
      Shallow, FirstSymbol, SymbolExop, SymbolBase, LiteralAction, LengthBase, LengthExtra, ReadDistance, Waits, LookedSymbol, LookedDistance;
    var lit, dist := a.block.lit, a.block.dist;
    var x := Shr(S, a.pos);
    CodesLevel(W, a);
    TokenEnds(S, a.pos, lit, dist);
    StartSymbol(S, W, limit, a);
    FirstSymbolIs(lit.lens, x);
    SymbolEnds(S, a.pos, lit);
    if LookedSymbol(S, a.pos, lit) <= 8 * limit {
      match SymbolAt(lit.lens, Pos(lit.lens, x)) {
        case Symbol(s) =>
          assert InAlphabet(lit.alphabet, s);
          LiteralActionIs(s);
          LiteralCodes();
          var q := a.pos + lit.lens[s];
          if s < 256 {
            LiteralToken(S, W, limit, a, s, q);
          } else if 256 < s < 286 {
            var a1 := a.(pos := q, block := a.block.(codes := LenExt(LengthBase(s - 257), LengthExtra(s - 257))));
            var (t, end) := ReadDistance(S, q + LengthExtra(s - 257), dist.lens, LengthBase(s - 257) + Peek(S, q, LengthExtra(s - 257)));
            MatchStep(S, W, limit, a1);
            if LookedDistance(S, q + LengthExtra(s - 257), dist) > 8 * limit {
              WaitsLater(S, W, limit, a, a1);
            } else {
              DoesFirst(S, W, limit, a, a1, t, end);
            }
          }
        case NoSymbol =>
          BadDistance(0);
      }
    }
  }

  lemma LiteralToken(S: nat, W: nat, limit: nat, a: State, c: byte, q: nat)
    requires Good(W, a) && a.block.InCodes? && q <= 8 * limit
    requires var b := a.(pos := q, block := a.block.(codes := Lit(c))); Reaches(S, W, limit, a, b) && Good(W, b)
    ensures Does(S, W, limit, a, Literal(c), q)
  {
    hide Good, Next, Reaches;
    CodesLevel(W, a);
    var b := a.(pos := q, block := a.block.(codes := Lit(c)));
    LitStep(S, W, limit, b);
    ReachesStep(S, W, limit, a, b, Next(S, W, b));
  }

  /** What the machine does later on, it also does from before. */
  lemma DoesFirst(S: nat, W: nat, limit: nat, a: State, b: State, t: Token, end: nat)
    requires Good(W, a) && a.block.InCodes? && Reaches(S, W, limit, a, b)
    requires Good(W, b) && b.block.InCodes? && Does(S, W, limit, b, t, end)
    requires b == a.(pos := b.pos, block := a.block.(codes := b.block.codes))
    ensures Does(S, W, limit, a, t, end)
  {
    hide Good, Reaches, BackDistance;
    match t {
      case Invalid =>
        var p: nat :| Reaches(S, W, limit, b, b.(pos := p, block := b.block.(codes := BadCode)));
        ReachesTrans(S, W, limit, a, b, b.(pos := p, block := b.block.(codes := BadCode)));
      case EndOfBlock =>
        ReachesTrans(S, W, limit, a, b, b.(pos := end, block := b.block.(codes := Wash)));
      case _ =>
        ReachesTrans(S, W, limit, a, b, b.(pos := end, hist := Emit(W, b.hist, t), block := b.block.(codes := Start)));
    }
  }

  // ----- The data of a compressed block

  /** What reading came to: the end; an error; the end of the input; a distance that is not allowed;
    * something RFC 1951 allows and the decoder does not; or something it does not say how to read. */
  datatype Reading = Ends | Fails | Cut | Forbidden(dist: nat) | Refused | Unspecified

  /** Tokens from bit `pos` on, up to the end of block, with the first `m` bits of the stream. */
  ghost function ReadBlock(S: nat, W: nat, m: nat, pos: nat, out: seq<byte>, lit: Lengths, dist: Lengths):
    (r: (Reading, nat, seq<byte>))
    ensures r.1 >= pos && out <= r.2 && (pos <= m ==> r.1 <= m)
    decreases m - pos
  {
    var (t, end) := ReadToken(S, pos, lit, dist);
    if end > m then (Cut, pos, out)
    else match t
      case EndOfBlock => (Ends, end, out)
      case Invalid => (Fails, end, out)
      case Literal(_) => ReadBlock(S, W, m, end, Emitted(W, out, t), lit, dist)
      case Match(_, d) =>
        if Allowed(W, out, t) then ReadBlock(S, W, m, end, Emitted(W, out, t), lit, dist)
        else (Forbidden(d), end, out)
  }

  /** How far the decoder looks for these tokens. */
  ghost function BlockLooked(S: nat, W: nat, m: nat, pos: nat, out: seq<byte>, lit: Tree, dist: Tree): nat
    decreases m - pos
  {
    var (t, end) := ReadToken(S, pos, lit.lens, dist.lens);
    if end > m then pos
    else if (t.Literal? || t.Match?) && Allowed(W, out, t) then
      Most(Looked(S, pos, lit, dist), BlockLooked(S, W, m, end, Emitted(W, out, t), lit, dist))
    else Looked(S, pos, lit, dist)
  }

  /** From history `h` the decoder went on to `h'` with a copy from the distance `d`, wherever that leads. */
  predicate Shown(W: nat, h: seq<byte>, d: nat, h': seq<byte>) {
    && 0 < W <= |h| < |h'| && h <= h' && d > 0
    && h'[|h|] == h[|h| - BackDistance(W, d)]
  }

  /** Where the machine is when reading came to `r` and the decoder looked `looked` far for that.  If these
    * bits are not all there, it waits. */
  ghost predicate Arrived(S: nat, W: nat, limit: nat, m: nat, init: seq<byte>, goal: Block, b: State,
                          r: (Reading, nat, seq<byte>), looked: nat) {
    if looked > 8 * limit then Starved(S, W, limit, b) && b.hist <= init + r.2
    else match r.0
      case Ends => b.hist == init + r.2 && b.pos == r.1 && b.block == goal
      case Cut => b.hist == init + r.2 && (m == 8 * limit ==> Starved(S, W, limit, b))
      case Forbidden(d) => Shown(W, init + r.2, d, b.hist)
      case Unspecified => b.hist == init + r.2
      case _ => b.hist == init + r.2 && Terminal(b) && !b.block.Done?
  }

  /** The machine gets there from `a`; `init` is the window's content before the stream, and `goal` what the
    * end leads to. */
  ghost predicate Comes(S: nat, W: nat, limit: nat, m: nat, init: seq<byte>, goal: Block, a: State,
                        r: (Reading, nat, seq<byte>), looked: nat)
    requires Good(W, a)
  {
    exists b :: Reaches(S, W, limit, a, b) && Arrived(S, W, limit, m, init, goal, b, r, looked)
  }

  lemma ComesHere(S: nat, W: nat, limit: nat, m: nat, init: seq<byte>, goal: Block, a: State, b: State,
                  r: (Reading, nat, seq<byte>), looked: nat)
    requires Good(W, a) && Reaches(S, W, limit, a, b) && Arrived(S, W, limit, m, init, goal, b, r, looked)
    ensures Comes(S, W, limit, m, init, goal, a, r, looked)
  {
    hide Good, Reaches, Arrived;
  }

  lemma ComesLater(S: nat, W: nat, limit: nat, m: nat, init: seq<byte>, goal: Block, a: State, b: State,
                   r: (Reading, nat, seq<byte>), before: nat, looked: nat)
    requires Good(W, a) && Reaches(S, W, limit, a, b) && Good(W, b) && before <= 8 * limit
    requires Comes(S, W, limit, m, init, goal, b, r, looked)
    ensures Comes(S, W, limit, m, init, goal, a, r, looked)
    ensures Comes(S, W, limit, m, init, goal, a, r, Most(before, looked))
  {
    hide Good, Reaches, Terminal, Starved, Shown;
    var c :| Reaches(S, W, limit, b, c) && Arrived(S, W, limit, m, init, goal, c, r, looked);
    ReachesTrans(S, W, limit, a, b, c);
    assert Arrived(S, W, limit, m, init, goal, c, r, Most(before, looked));
  }

  lemma ComesToWait(S: nat, W: nat, limit: nat, m: nat, init: seq<byte>, goal: Block, a: State,
                    r: (Reading, nat, seq<byte>), looked: nat)
    requires Good(W, a) && Waits(S, W, limit, a) && a.hist <= init + r.2
    requires looked > 8 * limit || (r.0.Cut? && a.hist == init + r.2)
    ensures Comes(S, W, limit, m, init, goal, a, r, looked)
  {
    hide Good, Reaches, Terminal, Starved, Shown;
    var b :| Reaches(S, W, limit, a, b) && Starved(S, W, limit, b) && b.hist == a.hist;
    assert Arrived(S, W, limit, m, init, goal, b, r, looked);
  }

  /** The machine does what a token says, unless its distance is not allowed. */
  lemma TokenComes(S: nat, W: nat, limit: nat, init: seq<byte>, out: seq<byte>, a: State, t: Token, end: nat)
    requires Good(W, a) && a.block.InCodes? && a.hist == init + out && |init| == W
    requires (t.Literal? || t.Match?) && (t.Match? ==> t.len > 0 && t.dist > 0) && Does(S, W, limit, a, t, end)
    ensures 0 < W && (t.Match? ==> t.dist > 0)
    ensures var b := a.(pos := end, hist := Emit(W, a.hist, t), block := a.block.(codes := Start));
            && Reaches(S, W, limit, a, b) && Good(W, b)
            && (Allowed(W, out, t) ==> b.hist == init + Emitted(W, out, t))
            && (!Allowed(W, out, t) ==> t.Match? && Shown(W, a.hist, t.dist, b.hist))
  {
    hide Good, Reaches, BackDistance, Emitted;
    ReachesNext(S, W, limit, a, a.(pos := end, hist := Emit(W, a.hist, t), block := a.block.(codes := Start)));
    if Allowed(W, out, t) { EmitIsRfc(W, init, out, t); } else { CopyIsOutput(W, init, out, t); }
  }

  /** Over the whole data of a block, whatever its codes, the machine gets to where the reading of RFC 1951
    * ends, with the same output: at the end of the block, or in error.  If it would have to look beyond the
    * input, it waits. */
  lemma {:induction false} BlockRun(S: nat, W: nat, limit: nat, m: nat, init: seq<byte>, out: seq<byte>, a: State)
    requires Good(W, a) && a.block.InCodes? && a.block.codes.Start? && a.hist == init + out && |init| == W
    requires m <= 8 * limit && a.pos <= 8 * limit
    ensures var InCodes(lit, dist, _) := a.block;
            Comes(S, W, limit, m, init, AfterBlock(a.last), a,
                  ReadBlock(S, W, m, a.pos, out, lit.lens, dist.lens), BlockLooked(S, W, m, a.pos, out, lit, dist))
    decreases m - a.pos
  {
    hide Reaches, BackDistance, Good, ReadToken, Looked, Emitted, Emit, Waits, Comes, Allowed, Shown, Terminal, Starved;
    var InCodes(lit, dist, _) := a.block;
    var (t, end) := ReadToken(S, a.pos, lit.lens, dist.lens);
    var r, looked := ReadBlock(S, W, m, a.pos, out, lit.lens, dist.lens), BlockLooked(S, W, m, a.pos, out, lit, dist);
    var goal, first := AfterBlock(a.last), Looked(S, a.pos, lit, dist);
    TokenStep(S, W, limit, a);
    if end > m {
      ReachesRefl(S, W, limit, a);
      if m == 8 * limit {
        ComesToWait(S, W, limit, m, init, goal, a, r, looked);
      } else {
        ComesHere(S, W, limit, m, init, goal, a, a, r, looked);
      }
    } else if first > 8 * limit {
      ComesToWait(S, W, limit, m, init, goal, a, r, looked);
    } else if t.Invalid? {
      var p: nat :| Reaches(S, W, limit, a, a.(pos := p, block := a.block.(codes := BadCode)));
      var b := a.(pos := p, block := a.block.(codes := BadCode));
      BadEnds(b);
      ComesHere(S, W, limit, m, init, goal, a, b, r, looked);
    } else if t.EndOfBlock? {
      var b := a.(pos := end, block := a.block.(codes := Wash));
      ReachesNext(S, W, limit, a, b);
      WashIs(S, W, limit, b);
      ReachesStep(S, W, limit, a, b, b.(block := goal));
      ComesHere(S, W, limit, m, init, goal, a, b.(block := goal), r, looked);
    } else {
      MatchRange(S, a.pos, lit.lens, dist.lens);
      TokenComes(S, W, limit, init, out, a, t, end);
      var b := a.(pos := end, hist := Emit(W, a.hist, t), block := a.block.(codes := Start));
      if Allowed(W, out, t) {
        var o := Emitted(W, out, t);
        BlockRun(S, W, limit, m, init, o, b);
        ComesLater(S, W, limit, m, init, goal, a, b, r, first, BlockLooked(S, W, m, end, o, lit, dist));
      } else {
        ComesHere(S, W, limit, m, init, goal, a, b, r, looked);
      }
    }
  }

  lemma BadEnds(a: State)
    ensures a.block.Bad? || (a.block.InCodes? && a.block.codes.BadCode?) ==> Terminal(a) && !a.block.Done?
  {
  }

  /** The decoder never looks more than eight bits beyond what was read. */
  lemma {:induction false} BlockLookedBound(S: nat, W: nat, m: nat, pos: nat, out: seq<byte>, lit: Tree, dist: Tree)
    requires GoodTree(lit) && (|lit.lens| > 257 ==> GoodTree(dist))
    ensures BlockLooked(S, W, m, pos, out, lit, dist) <= ReadBlock(S, W, m, pos, out, lit.lens, dist.lens).1 + 8
    decreases m - pos
  {
    hide GoodTree, ReadToken, Looked, Emitted, Allowed;
    TokenEnds(S, pos, lit, dist);
    var (t, end) := ReadToken(S, pos, lit.lens, dist.lens);
    if end <= m && (t.Literal? || t.Match?) && Allowed(W, out, t) {
      BlockLookedBound(S, W, m, end, Emitted(W, out, t), lit, dist);
    }
  }

  // ----- Code lengths (section 3.2.7)

  /** How often a code length symbol repeats its length; `p` is where its extra bits start. */
  function RepeatCount(S: nat, p: nat, c: nat): (n: nat)
    ensures n > 0
  {
    if c < 16 then 1 else RepeatLeast(c) + Peek(S, p, RepeatExtra(c))
  }

  /** The length it stands for, after the lengths `lens`. */
  function RepeatValue(lens: seq<nat>, c: nat): nat {
    if c < 16 then c else if c == 16 && |lens| > 0 then lens[|lens| - 1] else 0
  }

  /** The lengths after those that symbol `c` adds. */
  function More(lens: seq<nat>, n: nat, c: nat): (r: seq<nat>)
    ensures |r| == |lens| + n
  {
    lens + seq(n, _ => RepeatValue(lens, c))
  }

  /** The code lengths from stream position `p` on, after those in `lens`, up to `total`.  What the bit means
    * that a code of a single symbol leaves over is said for distances only. */
  ghost function ReadLengths(S: nat, m: nat, p: nat, lens: seq<nat>, total: nat, code: Lengths): (r: (Reading, nat, seq<nat>))
    requires |lens| <= total
    ensures r.1 >= p && (p <= m ==> r.1 <= m) && !r.0.Forbidden? && !r.0.Refused?
    ensures |r.2| <= total && (r.0.Ends? ==> |r.2| == total)
    decreases total - |lens|
  {
    if |lens| == total then (Ends, p, lens)
    else match FirstSymbol(code, Shr(S, p))
      case Symbol(c) =>
        var n, end := RepeatCount(S, p + code[c], c), p + code[c] + RepeatExtra(c);
        if end > m then (Cut, p, lens)
        else if |lens| + n > total || (c == 16 && |lens| == 0) then (Fails, end, lens)
        else ReadLengths(S, m, end, More(lens, n, c), total, code)
      case NoSymbol =>
        if p + MaxLen(code) > m then (Cut, p, lens) else (Unspecified, p + MaxLen(code), lens)
  }

  /** How far the decoder looks for them. */
  ghost function LengthsLooked(S: nat, m: nat, p: nat, k: nat, total: nat, tree: Tree): nat
    decreases total - k
  {
    if k >= total then p
    else match FirstSymbol(tree.lens, Shr(S, p))
      case Symbol(c) =>
        var n, end := RepeatCount(S, p + tree.lens[c], c), p + tree.lens[c] + RepeatExtra(c);
        if end > m then p
        else if k + n > total || (c == 16 && k == 0) then Most(end, p + tree.l)
        else Most(Most(end, p + tree.l), LengthsLooked(S, m, end, k + n, total, tree))
      case NoSymbol => p
  }

  /** The machine reads the code lengths of a dynamic block into its scratch area. */
  ghost predicate GetsLengths(S: nat, W: nat, limit: nat, m: nat, a: State, r: (Reading, nat, seq<nat>), looked: nat)
    requires Good(W, a)
  {
    exists b :: Reaches(S, W, limit, a, b) && b.hist == a.hist && LengthsAt(S, W, limit, m, a, b, r, looked)
  }

  ghost predicate LengthsAt(S: nat, W: nat, limit: nat, m: nat, a: State, b: State, r: (Reading, nat, seq<nat>), looked: nat) {
    if looked > 8 * limit then Starved(S, W, limit, b)
    else match r.0
      case Ends => && a.block.DTree? && |r.2| <= |b.blens| && b.blens[..|r.2|] == r.2
                   && b == a.(pos := r.1, blens := b.blens, block := DTree(a.block.table, |r.2|, a.block.tree))
      case Cut => m == 8 * limit ==> Starved(S, W, limit, b)
      case Unspecified => true
      case _ => b.block.Bad?
  }

  lemma GetsHere(S: nat, W: nat, limit: nat, m: nat, a: State, b: State, r: (Reading, nat, seq<nat>), looked: nat)
    requires Good(W, a) && Reaches(S, W, limit, a, b) && b.hist == a.hist && LengthsAt(S, W, limit, m, a, b, r, looked)
    ensures GetsLengths(S, W, limit, m, a, r, looked)
  {
    hide Good, Reaches, LengthsAt;
  }

  lemma GetsLater(S: nat, W: nat, limit: nat, m: nat, a: State, b: State, r: (Reading, nat, seq<nat>), before: nat, looked: nat)
    requires Good(W, a) && a.block.DTree? && Reaches(S, W, limit, a, b) && Good(W, b)
    requires b.block.DTree? && b == a.(pos := b.pos, blens := b.blens, block := DTree(a.block.table, b.block.index, a.block.tree))
    requires GetsLengths(S, W, limit, m, b, r, looked) && before <= 8 * limit
    ensures GetsLengths(S, W, limit, m, a, r, Most(before, looked))
  {
    hide Good, Reaches, Starved;
    var c :| Reaches(S, W, limit, b, c) && c.hist == b.hist && LengthsAt(S, W, limit, m, b, c, r, looked);
    ReachesTrans(S, W, limit, a, b, c);
    assert LengthsAt(S, W, limit, m, a, c, r, Most(before, looked));
  }

  lemma GetsToWait(S: nat, W: nat, limit: nat, m: nat, a: State, r: (Reading, nat, seq<nat>), looked: nat)
    requires Good(W, a) && !Terminal(a) && a.pos + Need(S, W, a) > 8 * limit
    requires looked > 8 * limit || r.0.Cut?
    ensures GetsLengths(S, W, limit, m, a, r, looked)
  {
    hide Good, Reaches, Need, Terminal;
    ReachesRefl(S, W, limit, a);
    assert Starved(S, W, limit, a);
    GetsHere(S, W, limit, m, a, a, r, looked);
  }

  lemma RepeatIs(blens: seq<nat>, k: nat, n: nat, c: nat)
    requires k + n <= |blens|
    ensures Repeat(blens, k, n, RepeatValue(blens[..k], c))[..k + n] == More(blens[..k], n, c)
  {
    hide RepeatValue;
  }

  lemma BitsCode(tree: Tree)
    requires GoodBits(tree)
    ensures 0 < MaxLen(tree.lens) == tree.l <= 7
  {
    hide Incomplete, OverSubscribed, MaxLen;
  }

  /** The machine's step for the code length symbol at hand. */
  lemma SymbolStep(S: nat, W: nat, a: State)
    requires Good(W, a) && a.block.DTree? && a.block.index < Total(a.block.table)
    ensures !Terminal(a) && Good(W, Next(S, W, a)) && Total(a.block.table) <= |a.blens| && GoodBits(a.block.tree)
    ensures var DTree(table, k, tree) := a.block;
            var bits, c := CodeBits(tree, Shr(S, a.pos)), LengthSymbol(tree, Shr(S, a.pos));
            var n, end := RepeatCount(S, a.pos + bits, c), a.pos + bits + RepeatExtra(c);
            var b := Next(S, W, a);
            && a.pos + Need(S, W, a) == Most(end, a.pos + tree.l)
            && if k + n > Total(table) || (c == 16 && k == 0) then b.block.Bad? && b.hist == a.hist
               else b == a.(pos := end, blens := Repeat(a.blens, k, n, RepeatValue(a.blens[..k], c)), block := DTree(table, k + n, tree))
  {
    hide Good, GoodBits, Next, Need, Peek, Repeat, Terminal, Shr, CodeBits, LengthSymbol, MaxLen, Total, RepeatExtra, RepeatBits,
      RepeatLeast, RepeatBase;
    DTreeIs(S, W, a);
    var tree, x := a.block.tree, Shr(S, a.pos);
    BitsCode(tree);
    var c := LengthSymbol(tree, x);
    RepeatsAre(c);
    if c < 16 { RepeatOnce(a.blens, a.block.index, c); }
  }

  /** One code length symbol, as reading has it. */
  lemma LengthStep(S: nat, W: nat, a: State)
    requires Good(W, a) && a.block.DTree? && a.block.index < Total(a.block.table)
    ensures !Terminal(a) && Good(W, Next(S, W, a)) && Total(a.block.table) <= |a.blens|
    ensures var DTree(table, k, tree) := a.block;
            match FirstSymbol(tree.lens, Shr(S, a.pos))
            case NoSymbol => Need(S, W, a) >= MaxLen(tree.lens)
            case Symbol(c) =>
              var n, end := RepeatCount(S, a.pos + tree.lens[c], c), a.pos + tree.lens[c] + RepeatExtra(c);
              var b := Next(S, W, a);
              && a.pos + Need(S, W, a) == Most(end, a.pos + tree.l)
              && if k + n > Total(table) || (c == 16 && k == 0) then b.block.Bad? && b.hist == a.hist
                 else b == a.(pos := end, blens := Repeat(a.blens, k, n, RepeatValue(a.blens[..k], c)), block := DTree(table, k + n, tree))
  {
    hide Good, GoodBits, Next, Need, Repeat, MaxLen, SymbolAt, LenAt, Shr, Terminal, FirstSymbol, RepeatCount, RepeatExtra, RepeatValue, Total;
    var tree, x := a.block.tree, Shr(S, a.pos);
    SymbolStep(S, W, a);
    BitsCode(tree);
    FirstSymbolIs(tree.lens, x);
    match SymbolAt(tree.lens, Pos(tree.lens, x)) {
      case Symbol(c) => SymbolLength(tree, x);
      case NoSymbol => NoSymbolLongest(tree.lens, Pos(tree.lens, x));
    }
  }

  lemma RepeatOnce(blens: seq<nat>, k: nat, c: nat)
    requires k < |blens|
    ensures blens[k := c] == Repeat(blens, k, 1, c)
  {
  }

  /** What one code length symbol adds to what is read. */
  lemma LengthsRead(S: nat, m: nat, p: nat, lens: seq<nat>, total: nat, code: Lengths)
    requires |lens| < total
    ensures var r := ReadLengths(S, m, p, lens, total, code);
            match FirstSymbol(code, Shr(S, p))
            case NoSymbol => r == (if p + MaxLen(code) > m then Cut else Unspecified, r.1, lens)
            case Symbol(c) =>
              var n, end := RepeatCount(S, p + code[c], c), p + code[c] + RepeatExtra(c);
              r == if end > m then (Cut, p, lens)
                   else if |lens| + n > total || (c == 16 && |lens| == 0) then (Fails, end, lens)
                   else ReadLengths(S, m, end, More(lens, n, c), total, code)
  {
    hide FirstSymbol, RepeatCount, RepeatExtra, MaxLen, Shr, More;
  }

  /** And to what is looked at. */
  lemma LengthsFirst(S: nat, m: nat, p: nat, k: nat, total: nat, tree: Tree)
    requires k < total
    ensures var looked := LengthsLooked(S, m, p, k, total, tree);
            match FirstSymbol(tree.lens, Shr(S, p))
            case NoSymbol => looked == p
            case Symbol(c) =>
              var n, end := RepeatCount(S, p + tree.lens[c], c), p + tree.lens[c] + RepeatExtra(c);
              looked == if end > m then p
                        else if k + n > total || (c == 16 && k == 0) then Most(end, p + tree.l)
                        else Most(Most(end, p + tree.l), LengthsLooked(S, m, end, k + n, total, tree))
  {
    hide FirstSymbol, RepeatCount, RepeatExtra, MaxLen, Shr, Most;
  }

  /** From where the code lengths start, the machine reads what the reading of RFC 1951 gives, or waits. */
  lemma {:induction false} LengthsRun(S: nat, W: nat, limit: nat, m: nat, a: State)
    requires Good(W, a) && a.block.DTree? && m <= 8 * limit && a.pos <= 8 * limit
    ensures a.block.index <= Total(a.block.table) && a.block.index <= |a.blens|
    ensures var DTree(table, k, tree) := a.block;
            GetsLengths(S, W, limit, m, a, ReadLengths(S, m, a.pos, a.blens[..k], Total(table), tree.lens),
                        LengthsLooked(S, m, a.pos, k, Total(table), tree))
    decreases Total(a.block.table) - a.block.index
  {
    hide Reaches, Next, Need, GetsLengths, Good, Terminal, FirstSymbol, RepeatCount, RepeatValue, RepeatExtra, Repeat, MaxLen, Shr, Starved,
      ReadLengths, LengthsLooked, More;
    GoodLengths(W, a);
    var DTree(table, k, tree) := a.block;
    var r := ReadLengths(S, m, a.pos, a.blens[..k], Total(table), tree.lens);
    var looked := LengthsLooked(S, m, a.pos, k, Total(table), tree);
    ReachesRefl(S, W, limit, a);
    if k == Total(table) {
      LengthsDone(S, m, a.pos, a.blens[..k], tree);
      GetsHere(S, W, limit, m, a, a, r, looked);
    } else {
      LengthStep(S, W, a);
      LengthsRead(S, m, a.pos, a.blens[..k], Total(table), tree.lens);
      LengthsFirst(S, m, a.pos, k, Total(table), tree);
      var d := FirstSymbol(tree.lens, Shr(S, a.pos));
      if a.pos + Need(S, W, a) > 8 * limit && (looked > 8 * limit || r.0.Cut?) {
        GetsToWait(S, W, limit, m, a, r, looked);
      } else if d.NoSymbol? || a.pos + tree.lens[d.sym] + RepeatExtra(d.sym) > m {
        GetsHere(S, W, limit, m, a, a, r, looked);
      } else {
        OneStep(S, W, limit, a);
        var b := Next(S, W, a);
        if b.block.Bad? {
          GetsHere(S, W, limit, m, a, b, r, looked);
        } else {
          var n := RepeatCount(S, a.pos + tree.lens[d.sym], d.sym);
          RepeatIs(a.blens, k, n, d.sym);
          LengthsRun(S, W, limit, m, b);
          GetsLater(S, W, limit, m, a, b, r, Most(b.pos, a.pos + tree.l), LengthsLooked(S, m, b.pos, b.block.index, Total(table), tree));
        }
      }
    }
  }

  lemma LengthsDone(S: nat, m: nat, p: nat, lens: seq<nat>, tree: Tree)
    ensures ReadLengths(S, m, p, lens, |lens|, tree.lens) == (Ends, p, lens) && LengthsLooked(S, m, p, |lens|, |lens|, tree) == p
  {
  }

  lemma GoodLengths(W: nat, a: State)
    requires Good(W, a) && a.block.DTree?
    ensures a.block.index <= Total(a.block.table) <= |a.blens|
  {
    hide GoodBits;
  }
}
