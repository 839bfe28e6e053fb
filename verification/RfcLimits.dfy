/** Two streams at the edges of what the decoder and RFC 1951 have in common: one that is complete, and
  * for the end of which the decoder waits all the same; and one with a distance that is not allowed, which the
  * decoder takes without an error.
  */
module RfcLimits {
  import opened Bits
  import opened Canonical
  import opened HuftTables
  import opened HuftBuild
  import opened InflateTrees
  import opened HuftCapacity
  import opened Deflate
  import opened DeflateRun
  import opened InfUtil
  import opened InfState
  import opened InfFast
  import opened InfBlock
  import opened InfBlocks
  import opened Inflate
  import opened Rfc
  import opened RfcStream
  import opened RfcNumbers

  // ----- The fixed codes

  /** The seven-bit codes of the fixed literal/length code are those of symbols 256 to 279. */
  lemma SevenBits(x: nat)
    requires Rev(7, x) < 24
    ensures FirstSymbol(FixedLiteralLengths(), x) == Symbol(256 + Rev(7, x))
  {
    hide MaxLen, LenAt, SymbolAt, Rev, Code, FixedLiteralLengths;
    var l, s := FixedLiteralLengths(), 256 + Rev(7, x);
    FixedLiteralCode(s);
    FixedLiteralUsable();
    DecodeIsRfc(l, x, s);
    FirstSymbolIs(l, x);
  }

  /** And the five-bit codes those of the distances. */
  lemma FiveBits(x: nat)
    requires Rev(5, x) < 30
    ensures FirstSymbol(FixedDistanceLengths(), x) == Symbol(Rev(5, x))
  {
    hide MaxLen, LenAt, SymbolAt, Rev, Code, FixedDistanceLengths;
    var l, s := FixedDistanceLengths(), Rev(5, x);
    FixedDistanceCode(s);
    FixedDistanceUsable();
    DecodeIsRfc(l, x, s);
    FirstSymbolIs(l, x);
  }

  /** The fixed literal/length code is looked up nine bits at a time. */
  lemma NineBits(x: nat)
    ensures MaxLen(FixedLiteralLengths()) == 9 && Seen(FixedLiteralTree(), 0, x) == 9
  {
    hide MaxLen, LenAt, Rev, Low, TableBits;
    FixedLiteralUsable();
    NoShift(x);
    NineTable();
  }

  lemma NineTable()
    ensures MaxLen(FixedLiteralLengths()) == 9 && TableBits(FixedLiteralTree(), 0, 0) == 9
  {
    hide MaxLen, LenAt, Rev, Low, OverSubscribed, Incomplete, FixedLiteralLengths, End;
    FixedLiteralUsable();
    RevZero(9);
    SmallPowers();
    LastNine();
  }

  /** The last code has nine bits. */
  lemma LastNine()
    ensures MaxLen(FixedLiteralLengths()) == 9 && LenAt(FixedLiteralLengths(), 511) == 9
  {
    hide MaxLen, LenAt, Count, OverSubscribed, Incomplete, Shl, FixedLiteralLengths, End;
    var l := FixedLiteralLengths();
    FixedLiteralUsable();
    KraftAtMax(l);
    assert l[..288] == l;
    FixedLiteralCounts(288, 9);
    EndNext(l, 9, 9);
    ShlNothing(112);
    SmallPowers();
    LenAtUnique(l, 511, 9);
  }

  lemma ShlNothing(x: int)
    ensures Shl(x, 0) == x
  {
  }

  /** A symbol of seven bits takes a look at nine. */
  lemma FixedToken(S: nat, p: nat)
    requires Rev(7, Shr(S, p)) == 0
    ensures ReadToken(S, p, FixedLiteralLengths(), FixedDistanceLengths()) == (EndOfBlock, p + 7)
    ensures Looked(S, p, FixedLiteralTree(), FixedDistanceTree()) == p + 9
  {
    hide MaxLen, Rev, Shr, Seen;
    SevenBits(Shr(S, p));
    NineBits(Shr(S, p));
  }

  // ----- A complete stream for the end of which the decoder waits

  /** Four empty blocks with fixed codes, of ten bits each. */
  const COMPLETE: nat := 2 + 1024 * 2 + 1048576 * 2 + 1073741824 * 3

  lemma CompleteBytes()
    ensures Stream([2, 8, 32, 192, 0]) == COMPLETE
  {
  }

  lemma RevNothing(n: nat, x: nat)
    requires Low(x, n) == 0
    ensures Rev(n, x) == 0
  {
    if n > 0 { ShlZero(n - 1); }
  }

  lemma Ten(lo: nat, y: nat)
    requires lo < 1024
    ensures Low(lo + 1024 * y, 10) == lo && Shr(lo + 1024 * y, 10) == y
  {
    SmallPowers();
    Shl5(y);
    Shl5(32 * y);
    ShlShl(y, 5, 5);
    Unsplit(lo, y, 10);
  }

  lemma EmptyShifts()
    ensures Shr(COMPLETE, 0) == COMPLETE && Shr(COMPLETE, 10) == 3147778 && Shr(COMPLETE, 20) == 3074 && Shr(COMPLETE, 30) == 3
    ensures forall p :: p == 0 || p == 10 || p == 20 ==> Low(Shr(COMPLETE, p), 10) == 2
    ensures Low(Shr(COMPLETE, 30), 10) == 3
  {
    NoShift(COMPLETE);
    hide Shr, Low;
    Ten(2, 3147778);
    Ten(2, 3074);
    Ten(2, 3);
    Ten(3, 0);
    ShrShr(COMPLETE, 10, 10);
    ShrShr(COMPLETE, 20, 10);
  }

  lemma EmptyBlock(p: nat)
    requires p == 0 || p == 10 || p == 20 || p == 30
    ensures Peek(COMPLETE, p, 3) == (if p < 30 then 2 else 3) && Rev(7, Shr(COMPLETE, p + 3)) == 0
  {
    hide Shr, Low, Rev;
    EmptyShifts();
    LowOfZero(7);
    var x := Shr(COMPLETE, p);
    SmallPowers();
    assert Pow2(3) == 8;
    LowSmall(2, 3);
    LowSmall(3, 3);
    ShrShr(COMPLETE, p, 3);
    LowLow(x, 3, 10);
    LowSplit(x, 3, 7);
    RevNothing(7, Shr(x, 3));
  }

  lemma EmptyRead(W: nat, p: nat)
    requires p == 0 || p == 10 || p == 20 || p == 30
    ensures ReadOne(COMPLETE, W, 40, p + 3, [], 1) == (Ends, p + 10, []) && OneLooked(COMPLETE, W, 40, p + 3, [], 1) == p + 12
  {
    hide ReadToken, Looked, Peek, Shr, Rev;
    EmptyBlock(p);
    FixedToken(COMPLETE, p + 3);
  }

  /** The stream ends with its fifth byte; but the last lookup takes two bits more than there are. */
  lemma CompleteReads(W: nat)
    ensures ReadStream(COMPLETE, W, 40, 0, []) == (Ends, 40, []) && StreamLooked(COMPLETE, W, 40, 0, []) == 42
  {
    hide ReadOne, OneLooked, Peek;
    EmptyBlock(30);
    EmptyRead(W, 30);
    assert ReadStream(COMPLETE, W, 40, 30, []) == (Ends, 40, []) && StreamLooked(COMPLETE, W, 40, 30, []) == 42;
    EmptyBlock(20);
    EmptyRead(W, 20);
    assert ReadStream(COMPLETE, W, 40, 20, []) == (Ends, 40, []) && StreamLooked(COMPLETE, W, 40, 20, []) == 42;
    EmptyBlock(10);
    EmptyRead(W, 10);
    assert ReadStream(COMPLETE, W, 40, 10, []) == (Ends, 40, []) && StreamLooked(COMPLETE, W, 40, 10, []) == 42;
    EmptyBlock(0);
    EmptyRead(W, 0);
  }

  lemma CompleteWaits(W: nat, a: State)
    requires Good(W, a) && a.block.Type? && a.pos == 0 && |a.hist| == W
    ensures Stream([2, 8, 32, 192, 0]) == COMPLETE
    ensures ReadStream(COMPLETE, W, 40, 0, []) == (Ends, 40, []) && StreamLooked(COMPLETE, W, 40, 0, []) == 42
    ensures Starved(COMPLETE, W, 5, Finish(COMPLETE, W, 5, a))
  {
    hide Good, ReadStream, StreamLooked, Finish, Starved, Output, Stream;
    CompleteBytes();
    CompleteReads(W);
    OutputIsRfc(COMPLETE, W, 5, a);
  }

  // ----- A distance that is not allowed

  /** One block with fixed codes: a length of 3 and a distance of 1, and the end of the block. */
  const BACK: nat := 3 + 8 * 64

  lemma BackBytes()
    ensures Stream([3, 2, 0]) == BACK
  {
  }

  lemma BackShifts()
    ensures Low(515, 3) == 3 && Shr(515, 3) == 64 && Shr(64, 7) == 0 && Shr(64, 6) == 1 && Rev(1, 1) == 1 && Shl(0, 1) == 0
  {
  }

  lemma BackBits()
    ensures Peek(BACK, 0, 3) == 3 && Rev(7, Shr(BACK, 3)) == 1 && Rev(5, Shr(BACK, 10)) == 0 && Rev(7, Shr(BACK, 15)) == 0
    ensures Peek(BACK, 10, 0) == 0 && Peek(BACK, 15, 0) == 0
  {
    hide Shr, Low, Rev, Shl;
    BackShifts();
    PowerMultiple(6, 6);
    SixtyFour();
    NoShift(BACK);
    ShrShr(BACK, 3, 7);
    ShrShr(BACK, 10, 5);
    RevNothing(6, 64);
    RevSplit(6, 1, 64);
    ShrNothing(5);
    LowOfZero(5);
    LowOfZero(7);
    RevNothing(5, 0);
    RevNothing(7, 0);
    NoShift(Shr(BACK, 10));
    NoShift(Shr(BACK, 15));
  }

  lemma ShrNothing(n: nat)
    ensures Shr(0, n) == 0
  {
  }

  lemma FirstEntries()
    ensures LengthBase(0) == 3 && LengthExtra(0) == 0 && DistanceBase(0) == 1 && DistanceExtra(0) == 0
    ensures FixedLiteralLengths()[257] == 7 && FixedDistanceLengths()[0] == 5
  {
  }

  lemma BackDistanceRead()
    ensures ReadDistance(BACK, 10, FixedDistanceLengths(), 3) == (Match(3, 1), 15)
  {
    hide Rev, Shr, MaxLen, Peek, DistanceBase, DistanceExtra, FixedDistanceLengths, FirstSymbol;
    BackBits();
    FirstEntries();
    FiveBits(Shr(BACK, 10));
  }

  lemma BackTokens()
    ensures var lit, dist := FixedLiteralTree(), FixedDistanceTree();
            && ReadToken(BACK, 3, lit.lens, dist.lens) == (Match(3, 1), 15)
            && ReadToken(BACK, 15, lit.lens, dist.lens) == (EndOfBlock, 22) && Looked(BACK, 15, lit, dist) == 24
  {
    hide Rev, Shr, MaxLen, Peek, LengthBase, LengthExtra, FixedLiteralLengths, FixedDistanceLengths, FirstSymbol, ReadDistance, Looked;
    BackBits();
    FirstEntries();
    BackDistanceRead();
    SevenBits(Shr(BACK, 3));
    FixedToken(BACK, 15);
  }

  /** The reading stops at the distance, before the first byte. */
  lemma BackForbidden(W: nat)
    ensures ReadStream(BACK, W, 24, 0, []) == (Forbidden(1), 15, [])
  {
    hide ReadToken, Peek, Shr, Rev;
    BackBits();
    BackTokens();
  }

  lemma CopyThree(W: nat, hist: seq<byte>)
    requires 0 < W <= |hist|
    ensures var c := hist[|hist| - 1]; Emit(W, hist, Match(3, 1)) == hist + [c, c, c]
  {
    var c := hist[|hist| - 1];
    assert CopyBytes(hist + [c, c, c], 1, 0) == hist + [c, c, c];
    assert hist + [c, c] + [c] == hist + [c, c, c];
    assert CopyBytes(hist + [c, c], 1, 1) == hist + [c, c, c];
    assert hist + [c] + [c] == hist + [c, c];
    assert CopyBytes(hist + [c], 1, 2) == hist + [c, c, c];
  }

  lemma BackHeader(W: nat, a: State)
    requires Good(W, a) && a.block.Type? && a.pos == 0
    ensures var b := Next(BACK, W, a);
            && Good(W, b) && Reaches(BACK, W, 3, a, b) && b.hist == a.hist && b.pos == 3 && b.last
            && b.block == InCodes(FixedLiteralTree(), FixedDistanceTree(), Start)
  {
    hide Good, Reaches, Next, Need, Peek, Terminal, FixedLiteralTree, FixedDistanceTree;
    BackBits();
    TypeIs(BACK, W, a);
    OneStep(BACK, W, 3, a);
  }

  lemma BackCopy(W: nat, a: State)
    requires Good(W, a) && a.pos == 3 && a.block == InCodes(FixedLiteralTree(), FixedDistanceTree(), Start)
    ensures 0 < W <= |a.hist|
    ensures var b := a.(pos := 15, hist := Emit(W, a.hist, Match(3, 1))); Good(W, b) && Reaches(BACK, W, 3, a, b)
  {
    hide Good, Reaches, ReadToken, Looked, Emit, Waits, FixedLiteralTree, FixedDistanceTree;
    BackTokens();
    GoodSize(W, a);
    TokenStep(BACK, W, 3, a);
    ReachesNext(BACK, W, 3, a, a.(pos := 15, hist := Emit(W, a.hist, Match(3, 1))));
  }

  lemma BackEnd(W: nat, a: State)
    requires Good(W, a) && a.pos == 15 && a.block == InCodes(FixedLiteralTree(), FixedDistanceTree(), Start) && a.last
    ensures var b := a.(pos := 22, block := Done); Good(W, b) && Reaches(BACK, W, 3, a, b)
  {
    hide Good, Reaches, ReadToken, Looked, Waits, FixedLiteralTree, FixedDistanceTree, Steps;
    BackTokens();
    TokenStep(BACK, W, 3, a);
    var b := a.(pos := 22, block := a.block.(codes := Wash));
    ReachesNext(BACK, W, 3, a, b);
    WashIs(BACK, W, 3, b);
    var c := b.(block := Dry);
    ReachesStep(BACK, W, 3, a, b, c);
    DryIs(BACK, W, 3, c);
    ReachesStep(BACK, W, 3, a, c, c.(block := Done));
  }

  /** The decoder puts out the last byte of the window three times, and ends without an error. */
  lemma BackShows(W: nat, a: State)
    requires Good(W, a) && a.block.Type? && a.pos == 0 && |a.hist| == W
    ensures Stream([3, 2, 0]) == BACK && ReadStream(BACK, W, 24, 0, []) == (Forbidden(1), 15, []) && 0 < W
    ensures var c := a.hist[W - 1];
            Output(BACK, W, 3, a) == [c, c, c] && Finish(BACK, W, 3, a).block.Done?
  {
    hide Good, ReadStream, Finish, Reaches, Next, Emit, FixedLiteralTree, FixedDistanceTree, Stream;
    BackBytes();
    GoodSize(W, a);
    BackForbidden(W);
    BackHeader(W, a);
    var b := Next(BACK, W, a);
    BackCopy(W, b);
    var c := b.(pos := 15, hist := Emit(W, b.hist, Match(3, 1)));
    BackEnd(W, c);
    var d := c.(pos := 22, block := Done);
    ReachesTrans(BACK, W, 3, b, c, d);
    ReachesTrans(BACK, W, 3, a, b, d);
    OnTheWay(BACK, W, 3, a, d);
    Stops(BACK, W, 3, d);
    CopyThree(W, a.hist);
  }
}
