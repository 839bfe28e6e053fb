/** A whole stream in the words of RFC 1951: block headers, stored blocks, and compressed blocks with
  * fixed and dynamic codes, one after the other (sections 3.2.3 to 3.2.7).
  *
  * Reading knows no table widths and no window content.  The decoder agrees with it as long as all the
  * bits it looks at are there, which can be up to eight bits more than were read.
  */
module RfcStream {
  import opened Bits
  import opened Canonical
  import opened HuftTables
  import opened HuftBuild
  import opened InflateTrees
  import opened HuftCapacity
  import opened Deflate
  import opened DeflateRun
  import opened InfState
  import opened InfLookup
  import opened InfFast
  import opened InfBlock
  import opened InfBlocks
  import opened Inflate
  import opened Rfc
  import opened RfcNumbers

  // ----- Reading

  /** `n` bytes of a stored block. */
  function StoredBytes(S: nat, p: nat, n: nat): seq<byte>
    decreases n
  {
    SmallByte();
    if n == 0 then [] else [Peek(S, p, 8)] + StoredBytes(S, p + 8, n - 1)
  }

  function ReadStored(S: nat, m: nat, p: nat, out: seq<byte>): (r: (Reading, nat, seq<byte>))
    ensures r.1 >= p && out <= r.2 && (p <= m ==> r.1 <= m) && !r.0.Forbidden?
  {
    var q := RoundUp8(p);
    if q + 32 > m then (Cut, p, out)
    else
      var n, there := Peek(S, q, 16), (m - q - 32) / 8;
      // the length is sent again, with all bits inverted
      if n + Peek(S, q + 16, 16) != 0xffff then (Fails, q + 32, out)
      else if n > there then (Cut, q + 32 + 8 * there, out + StoredBytes(S, q + 32, there))
      else (Ends, q + 32 + 8 * n, out + StoredBytes(S, q + 32, n))
  }

  /** The lengths of the bit length code: the first `n` in their order of transmission, the others 0. */
  function BitLengths(S: nat, p: nat, n: nat): (lens: Lengths)
    requires n <= 19
    ensures |lens| == 19
  {
    if n == 0 then seq(19, _ => 0)
    else BitLengths(S, p, n - 1)[ORDER[n - 1] := Peek(S, p + 3 * (n - 1), 3)]
  }

  /** There are at most 286 literal/length codes.  More than 30 distance codes may be sent, but the decoder
    * takes no more. */
  ghost function ReadDynamic(S: nat, W: nat, m: nat, p: nat, out: seq<byte>): (r: (Reading, nat, seq<byte>))
    ensures r.1 >= p && out <= r.2 && (p <= m ==> r.1 <= m)
  {
    if p + 14 > m then (Cut, p, out)
    else
      var hlit, hdist, hclen := Peek(S, p, 5), Peek(S, p + 5, 5), SmallPeek(S, p + 10);
      var n := hclen + 4;
      var q := p + 14 + 3 * n;
      if hlit + 257 > 286 then (Fails, p + 14, out)
      else if hdist + 1 > 30 then (Refused, p + 14, out)
      else if q > m then (Cut, p + 14, out)
      else ReadCodes(S, W, m, q, out, hlit + 257, hdist + 1, BitLengths(S, p + 14, n))
  }

  function SmallPeek(S: nat, p: nat): (n: nat)
    ensures n == Peek(S, p, 4) < 16
  {
    Powers();
    Peek(S, p, 4)
  }

  /** The code lengths of `nlit` literal/length and `ndist` distance codes, sent with the code `bits`, and the data
    * that follows. */
  ghost function ReadCodes(S: nat, W: nat, m: nat, p: nat, out: seq<byte>, nlit: nat, ndist: nat, bits: Lengths): (r: (Reading, nat, seq<byte>))
    ensures r.1 >= p && out <= r.2 && (p <= m ==> r.1 <= m)
  {
    if !Decodable(bits) then (Fails, p, out)
    else
      var (v, end, lens) := ReadLengths(S, m, p, [], nlit + ndist, bits);
      if !v.Ends? then (v, end, out) else ReadData(S, W, m, end, out, lens[..nlit], lens[nlit..])
  }

  /** The data of a dynamic block.  Its codes must be usable; without distance codes there is only literal
    * data, and then the decoder wants no length codes either. */
  ghost function ReadData(S: nat, W: nat, m: nat, p: nat, out: seq<byte>, lit: Lengths, dist: Lengths): (r: (Reading, nat, seq<byte>))
    ensures r.1 >= p && out <= r.2 && (p <= m ==> r.1 <= m)
  {
    if !Decodable(lit) || (MaxLen(dist) > 0 && !Decodable(dist)) then (Fails, p, out)
    else if MaxLen(dist) == 0 && |lit| > 257 then (Refused, p, out)
    else ReadBlock(S, W, m, p, out, lit, dist)
  }

  ghost function ReadOne(S: nat, W: nat, m: nat, p: nat, out: seq<byte>, kind: nat): (r: (Reading, nat, seq<byte>))
    ensures r.1 >= p && out <= r.2 && (p <= m ==> r.1 <= m)
  {
    if kind == 0 then ReadStored(S, m, p, out)
    else if kind == 1 then ReadBlock(S, W, m, p, out, FixedLiteralLengths(), FixedDistanceLengths())
    else if kind == 2 then ReadDynamic(S, W, m, p, out)
    else (Fails, p, out)
  }

  /** Blocks from bit `p` on, up to the last, with the first `m` bits of the stream. */
  ghost function ReadStream(S: nat, W: nat, m: nat, p: nat, out: seq<byte>): (r: (Reading, nat, seq<byte>))
    ensures r.1 >= p && out <= r.2 && (p <= m ==> r.1 <= m)
    decreases m - p
  {
    if p + 3 > m then (Cut, p, out)
    else
      var t := Peek(S, p, 3);
      var (v, q, o) := ReadOne(S, W, m, p + 3, out, t / 2);
      if v.Ends? && t % 2 == 0 then ReadStream(S, W, m, q, o) else (v, q, o)
  }

  // ----- How far the decoder looks

  function DistanceTree(dist: Lengths): Tree {
    if MaxLen(dist) == 0 then Tree(dist, 0, DISTANCES) else MakeTree(dist, DISTANCES, DISTANCE_WIDTH)
  }

  ghost function DataLooked(S: nat, W: nat, m: nat, p: nat, out: seq<byte>, lit: Lengths, dist: Lengths): nat {
    if CodesOK(lit, dist) then BlockLooked(S, W, m, p, out, MakeTree(lit, LITERALS, LITERAL_WIDTH), DistanceTree(dist)) else p
  }

  ghost function CodesLooked(S: nat, W: nat, m: nat, p: nat, out: seq<byte>, nlit: nat, ndist: nat, bits: Lengths): nat {
    if !Decodable(bits) then p
    else
      var (v, end, lens) := ReadLengths(S, m, p, [], nlit + ndist, bits);
      var looked := LengthsLooked(S, m, p, 0, nlit + ndist, MakeTree(bits, BITS_ALPHABET, BITS_WIDTH));
      if !v.Ends? then looked else Most(looked, DataLooked(S, W, m, end, out, lens[..nlit], lens[nlit..]))
  }

  ghost function DynamicLooked(S: nat, W: nat, m: nat, p: nat, out: seq<byte>): nat {
    if p + 14 > m then p
    else
      var hlit, hdist, n := Peek(S, p, 5), Peek(S, p + 5, 5), SmallPeek(S, p + 10) + 4;
      if hlit + 257 > 286 || hdist + 1 > 30 || p + 14 + 3 * n > m then p
      else CodesLooked(S, W, m, p + 14 + 3 * n, out, hlit + 257, hdist + 1, BitLengths(S, p + 14, n))
  }

  ghost function OneLooked(S: nat, W: nat, m: nat, p: nat, out: seq<byte>, kind: nat): nat {
    if kind == 1 then BlockLooked(S, W, m, p, out, FixedLiteralTree(), FixedDistanceTree())
    else if kind == 2 then DynamicLooked(S, W, m, p, out)
    else p
  }

  /** The last bit that the decoder looks at while the stream is read; headers and stored bytes it takes
    * bit by bit. */
  ghost function StreamLooked(S: nat, W: nat, m: nat, p: nat, out: seq<byte>): nat
    decreases m - p
  {
    if p + 3 > m then p
    else
      var t := Peek(S, p, 3);
      var (v, q, o) := ReadOne(S, W, m, p + 3, out, t / 2);
      var looked := OneLooked(S, W, m, p + 3, out, t / 2);
      if v.Ends? && t % 2 == 0 then Most(looked, StreamLooked(S, W, m, q, o)) else looked
  }

  lemma {:induction false} LengthsLookedBound(S: nat, m: nat, p: nat, lens: seq<nat>, total: nat, tree: Tree)
    requires |lens| <= total && tree.l <= 8
    ensures LengthsLooked(S, m, p, |lens|, total, tree) <= ReadLengths(S, m, p, lens, total, tree.lens).1 + 8
    decreases total - |lens|
  {
    hide FirstSymbol, Shr, RepeatCount, RepeatExtra, MaxLen, More, ReadLengths, LengthsLooked;
    if |lens| < total {
      LengthsRead(S, m, p, lens, total, tree.lens);
      LengthsFirst(S, m, p, |lens|, total, tree);
      var d := FirstSymbol(tree.lens, Shr(S, p));
      if d.Symbol? {
        var n := RepeatCount(S, p + tree.lens[d.sym], d.sym);
        if |lens| + n <= total {
          LengthsLookedBound(S, m, p + tree.lens[d.sym] + RepeatExtra(d.sym), More(lens, n, d.sym), total, tree);
        }
      }
    } else {
      LengthsDone(S, m, p, lens, tree);
    }
  }

  lemma TreesGood(lit: Lengths, dist: Lengths)
    requires ValidLengths(lit) && ValidLengths(dist) && |lit| <= 286 && |dist| <= 30 && CodesOK(lit, dist)
    ensures GoodTree(MakeTree(lit, LITERALS, LITERAL_WIDTH)) && (|lit| > 257 ==> GoodTree(DistanceTree(dist)))
  {
    hide Decodable, MaxLen, GoodTree;
    DynamicIsKraft(lit, dist);
    SmallPowers();
    MadeTreeGood(lit, LITERALS, LITERAL_WIDTH, 0);
    if MaxLen(dist) > 0 { MadeTreeGood(dist, DISTANCES, DISTANCE_WIDTH, 0); }
  }

  // ----- The machine does just that

  /** What is left of a stored block of `n` bytes after `k` of them. */
  function StoredRest(n: nat, k: nat, last: bool): Block {
    if k < n then Stored(n - k) else AfterBlock(last)
  }

  /** The next `k` bytes of a stored block. */
  lemma {:induction false} StoredRun(S: nat, W: nat, limit: nat, a: State, k: nat)
    requires Good(W, a) && a.block.Stored? && k <= a.block.left && a.pos + 8 * k <= 8 * limit
    ensures var b := a.(pos := a.pos + 8 * k, hist := a.hist + StoredBytes(S, a.pos, k), block := StoredRest(a.block.left, k, a.last));
            Reaches(S, W, limit, a, b) && Good(W, b)
    decreases k
  {
    hide Good, Next, Need, Reaches, Terminal, Peek;
    ReachesRefl(S, W, limit, a);
    GoodStored(W, a);
    if k == 0 {
      assert a.hist + StoredBytes(S, a.pos, 0) == a.hist;
    } else {
      SmallByte();
      var c: byte := PeekByte(S, a.pos);
      StoredIs(S, W, limit, a, c);
      OneStep(S, W, limit, a);
      var b := Next(S, W, a);
      StoredFirst(S, a.pos, k);
      if a.block.left > 1 {
        StoredRun(S, W, limit, b, k - 1);
        assert a.hist + [c] + StoredBytes(S, a.pos + 8, k - 1) == a.hist + StoredBytes(S, a.pos, k);
        ReachesTrans(S, W, limit, a, b, b.(pos := a.pos + 8 * k, hist := a.hist + StoredBytes(S, a.pos, k),
                                           block := StoredRest(a.block.left, k, a.last)));
      } else {
        assert StoredBytes(S, a.pos + 8, 0) == [];
        assert a.hist + [c] == a.hist + StoredBytes(S, a.pos, k);
      }
    }
  }

  function PeekByte(S: nat, p: nat): byte {
    SmallByte();
    Peek(S, p, 8)
  }

  lemma StoredFirst(S: nat, p: nat, n: nat)
    requires n > 0
    ensures StoredBytes(S, p, n) == [PeekByte(S, p)] + StoredBytes(S, p + 8, n - 1)
  {
    hide Peek;
  }

  lemma GoodStored(W: nat, a: State)
    requires Good(W, a) && a.block.Stored?
    ensures a.block.left > 0
  {
  }

  lemma StoredComes(S: nat, W: nat, limit: nat, m: nat, init: seq<byte>, out: seq<byte>, a: State, p: nat)
    requires Good(W, a) && a.block.Lens? && a.pos == RoundUp8(p) && a.pos <= 8 * limit && m <= 8 * limit
    requires a.hist == init + out && p <= m
    ensures Comes(S, W, limit, m, init, AfterBlock(a.last), a, ReadStored(S, m, p, out), p)
  {
    hide Good, Next, Need, Reaches, Terminal, Peek, Low, Shr, Comes, Starved;
    var r, goal := ReadStored(S, m, p, out), AfterBlock(a.last);
    ReachesRefl(S, W, limit, a);
    LensIs(S, W, a);
    if a.pos + 32 > m {
      if m == 8 * limit { StarvedHere(S, W, limit, a); }
      ComesHere(S, W, limit, m, init, goal, a, a, r, p);
    } else {
      OneStep(S, W, limit, a);
      var b := Next(S, W, a);
      var n, there := Peek(S, a.pos, 16), (m - a.pos - 32) / 8;
      LengthTwice(S, a.pos);
      if n + Peek(S, a.pos + 16, 16) != 0xffff {
        BadEnds(b);
        ComesHere(S, W, limit, m, init, goal, a, b, r, p);
      } else if n == 0 {
        assert out + [] == out;
        ComesHere(S, W, limit, m, init, goal, a, b, r, p);
      } else {
        var k := if n > there then there else n;
        var bytes := StoredBytes(S, b.pos, k);
        StoredRun(S, W, limit, b, k);
        var c := b.(pos := b.pos + 8 * k, hist := b.hist + bytes, block := StoredRest(n, k, a.last));
        assert init + out + bytes == init + (out + bytes);
        ReachesTrans(S, W, limit, a, b, c);
        if k < n && m == 8 * limit {
          StoredIs(S, W, limit, c, PeekByte(S, c.pos));
          StarvedHere(S, W, limit, c);
        }
        ComesHere(S, W, limit, m, init, goal, a, c, r, p);
      }
    }
  }

  /** The two halves of the 32 bits that the decoder takes at once. */
  lemma LengthTwice(S: nat, p: nat)
    ensures Low(Peek(S, p, 32), 16) == Peek(S, p, 16) && Shr(Peek(S, p, 32), 16) == Peek(S, p + 16, 16)
  {
    hide Low, Shr, Shl;
    ShrShr(S, p, 16);
    LowSplit(Shr(S, p), 16, 16);
    LowLow(Shr(S, p), 16, 32);
  }

  lemma StarvedHere(S: nat, W: nat, limit: nat, a: State)
    requires Good(W, a) && !Terminal(a) && a.pos + Need(S, W, a) > 8 * limit
    ensures Starved(S, W, limit, a)
  {
    hide Good, Need, Terminal;
  }

  // ----- Dynamic blocks

  lemma ReachesGood(S: nat, W: nat, limit: nat, a: State, b: State)
    requires Good(W, a) && Reaches(S, W, limit, a, b)
    ensures Good(W, b)
  {
    hide Good, Enabled, Next;
    var n: nat :| Run(S, W, limit, a, n) == b;
  }

  lemma RoundInside(p: nat, limit: nat)
    requires p <= 8 * limit
    ensures p <= RoundUp8(p) <= 8 * limit
  {
  }

  /** Some of the lengths of the bit length code have been read. */
  ghost predicate BitsRead(S: nat, p: nat, a: State) {
    && a.block.BTree? && a.block.index <= 19 && |a.blens| == BLENS_SIZE
    && a.pos == p + 3 * a.block.index
    && forall i :: 0 <= i < a.block.index ==> a.blens[Border(i)] == Peek(S, p + 3 * i, 3)
  }

  lemma {:induction false} BitsRun(S: nat, W: nat, limit: nat, a: State, p: nat) returns (b: State)
    requires Good(W, a) && BitsRead(S, p, a) && a.block.index <= 4 + a.block.table / 1024
    requires p + 3 * (4 + a.block.table / 1024) <= 8 * limit
    ensures Good(W, b) && Reaches(S, W, limit, a, b) && BitsRead(S, p, b)
    ensures b == a.(pos := b.pos, blens := b.blens, block := BTree(a.block.table, 4 + a.block.table / 1024))
    decreases 4 + a.block.table / 1024 - a.block.index
  {
    hide Good, Next, Need, Reaches, Terminal, Peek, Border;
    ReachesRefl(S, W, limit, a);
    b := a;
    if a.block.index < 4 + a.block.table / 1024 {
      BTreeIs(S, W, a);
      OneStep(S, W, limit, a);
      var c := Next(S, W, a);
      BorderApart(a.block.index);
      b := BitsRun(S, W, limit, c, p);
      ReachesTrans(S, W, limit, a, c, b);
    }
  }

  lemma BorderApart(i: nat)
    requires i < 19
    ensures forall j :: 0 <= j < i ==> Border(j) != Border(i)
  {
    hide Border, Unborder;
    assert Unborder(Border(i)) == i;
  }

  lemma AllBits(S: nat, p: nat, blens: seq<nat>, n: nat)
    requires |blens| == BLENS_SIZE && n <= 19
    requires forall i :: 0 <= i < n ==> blens[Border(i)] == Peek(S, p + 3 * i, 3)
    ensures ZeroRest(blens, n)[..19] == BitLengths(S, p, n)
  {
    hide Peek, Border, Unborder, ZeroRest, BitLengths;
    var r := ZeroRest(blens, n);
    forall s | 0 <= s < 19 ensures r[..19][s] == BitLengths(S, p, n)[s] {
      UnborderOnto(s);
      BitLengthsAt(S, p, n, Unborder(s));
      assert r[Border(Unborder(s))] == r[s];
    }
  }

  /** The length sent at place `i`, or 0 if there is none. */
  lemma {:induction false} BitLengthsAt(S: nat, p: nat, n: nat, i: nat)
    requires n <= 19 && i < 19
    ensures BitLengths(S, p, n)[Border(i)] == if i < n then Peek(S, p + 3 * i, 3) else 0
  {
    hide Peek, Border, ORDER;
    OrderIs(i);
    if n > 0 {
      OrderIs(n - 1);
      BitLengthsAt(S, p, n - 1, i);
      if i < n - 1 { BorderApart(n - 1); } else if i > n - 1 { BorderApart(i); }
    }
  }

  /** The three counts are parts of the 14 bits that the decoder takes at once. */
  lemma Counts(S: nat, p: nat)
    ensures var table := Peek(S, p, 14);
            && table % 32 == Peek(S, p, 5) && table / 32 % 32 == Peek(S, p + 5, 5) && table / 1024 == Peek(S, p + 10, 4) < 16
            && LiteralCount(table) == Peek(S, p, 5) + 257 && DistanceCount(table) == Peek(S, p + 5, 5) + 1
            && (TooManySymbols(table) <==> Peek(S, p, 5) + 257 > 286 || Peek(S, p + 5, 5) + 1 > 30)
  {
    hide Low, Shr, Shl;
    var x, y := Shr(S, p), Shr(S, p + 5);
    ShrShr(S, p, 5);
    ShrShr(S, p + 5, 5);
    LowSplit(x, 5, 9);
    LowSplit(y, 5, 4);
    Powers();
    Shl5(Low(y, 9));
    Shl5(Low(Shr(y, 5), 4));
    LowBound(x, 5);
    LowBound(y, 5);
    LowBound(Shr(S, p + 10), 4);
  }

  lemma Shl5(x: nat)
    ensures Shl(x, 5) == 32 * x
  {
    assert Shl(x, 1) == 2 * x;
    assert Shl(x, 2) == 4 * x;
    assert Shl(x, 3) == 8 * x;
    assert Shl(x, 4) == 16 * x;
  }

  /** From the counts of a dynamic block to its end. */
  lemma DynamicComes(S: nat, W: nat, limit: nat, m: nat, init: seq<byte>, out: seq<byte>, a: State)
    requires Good(W, a) && a.block.Table? && a.hist == init + out && |init| == W && m <= 8 * limit && a.pos <= m
    ensures Comes(S, W, limit, m, init, AfterBlock(a.last), a, ReadDynamic(S, W, m, a.pos, out), DynamicLooked(S, W, m, a.pos, out))
  {
    hide Good, Next, Need, Reaches, Terminal, Peek, Comes, ReadCodes, CodesLooked, BitLengths, Total, Starved,
      LiteralCount, DistanceCount, TooManySymbols, SmallPeek;
    var r, looked, goal := ReadDynamic(S, W, m, a.pos, out), DynamicLooked(S, W, m, a.pos, out), AfterBlock(a.last);
    ReachesRefl(S, W, limit, a);
    TableIs(S, W, a);
    if a.pos + 14 > m {
      if m == 8 * limit { StarvedHere(S, W, limit, a); }
      ComesHere(S, W, limit, m, init, goal, a, a, r, looked);
    } else {
      OneStep(S, W, limit, a);
      var b := Next(S, W, a);
      var table := Peek(S, a.pos, 14);
      Counts(S, a.pos);
      if TooManySymbols(table) {
        BadEnds(b);
        ComesHere(S, W, limit, m, init, goal, a, b, r, looked);
      } else if a.pos + 14 + 3 * (4 + table / 1024) > m {
        BTreeIs(S, W, b);
        BitsCut(S, W, limit, m, b, a.pos);
        ComesCut(S, W, limit, m, init, goal, a, b, r, looked);
      } else {
        BitsComes(S, W, limit, m, init, out, b, a.pos);
        ComesLater(S, W, limit, m, init, goal, a, b, r, 0, looked);
      }
    }
  }

  /** The bit length code is not all there. */
  lemma {:induction false} BitsCut(S: nat, W: nat, limit: nat, m: nat, a: State, p: nat)
    requires Good(W, a) && BitsRead(S, p + 14, a) && a.block.table == Peek(S, p, 14) && m <= 8 * limit
    requires a.pos <= m < p + 14 + 3 * (4 + a.block.table / 1024)
    ensures m == 8 * limit ==> Waits(S, W, limit, a)
    decreases 19 - a.block.index
  {
    hide Good, Next, Need, Reaches, Terminal, Peek, Border, Waits;
    BTreeIs(S, W, a);
    if m == 8 * limit {
      if a.pos + 3 > m {
        WaitsHere(S, W, limit, a);
      } else {
        OneStep(S, W, limit, a);
        BorderApart(a.block.index);
        BitsCut(S, W, limit, m, Next(S, W, a), p);
        WaitsLater(S, W, limit, a, Next(S, W, a));
      }
    }
  }

  lemma ComesCut(S: nat, W: nat, limit: nat, m: nat, init: seq<byte>, goal: Block, a: State, b: State,
                 r: (Reading, nat, seq<byte>), looked: nat)
    requires Good(W, a) && Reaches(S, W, limit, a, b) && Good(W, b) && looked <= 8 * limit
    requires (m == 8 * limit ==> Waits(S, W, limit, b)) && r.0.Cut? && b.hist == init + r.2
    ensures Comes(S, W, limit, m, init, goal, a, r, looked)
  {
    hide Good, Reaches, Waits, Comes, Starved;
    if m == 8 * limit {
      ComesToWait(S, W, limit, m, init, goal, b, r, looked);
      ComesLater(S, W, limit, m, init, goal, a, b, r, 0, looked);
    } else {
      ComesHere(S, W, limit, m, init, goal, a, b, r, looked);
    }
  }

  lemma BitsComes(S: nat, W: nat, limit: nat, m: nat, init: seq<byte>, out: seq<byte>, a: State, p: nat)
    requires Good(W, a) && a.block == BTree(Peek(S, p, 14), 0) && a.pos == p + 14 && a.hist == init + out && |init| == W
    requires m <= 8 * limit && p + 14 + 3 * (4 + a.block.table / 1024) <= m
    ensures a.block.table / 1024 < 16
    ensures var nlit, ndist, n := LiteralCount(a.block.table), DistanceCount(a.block.table), 4 + a.block.table / 1024;
            var q, bits := p + 14 + 3 * n, BitLengths(S, p + 14, n);
            Comes(S, W, limit, m, init, AfterBlock(a.last), a, ReadCodes(S, W, m, q, out, nlit, ndist, bits),
                  CodesLooked(S, W, m, q, out, nlit, ndist, bits))
  {
    hide Good, Next, Need, Reaches, Terminal, Peek, Comes, Decodable, ReadLengths, LengthsLooked, ReadData, DataLooked, BitLengths,
      Total, Border, MakeTree, ReadCodes, CodesLooked, Starved, LiteralCount, DistanceCount;
    ManyTables(W, a, p, S);
    var nlit, ndist, n, goal := LiteralCount(a.block.table), DistanceCount(a.block.table), 4 + a.block.table / 1024, AfterBlock(a.last);
    var q, bits := p + 14 + 3 * n, BitLengths(S, p + 14, n);
    var r, looked := ReadCodes(S, W, m, q, out, nlit, ndist, bits), CodesLooked(S, W, m, q, out, nlit, ndist, bits);
    var b := BitsRun(S, W, limit, a, p + 14);
    TreeStep(S, W, limit, b, p + 14);
    var c := Next(S, W, b);
    ReachesTrans(S, W, limit, a, b, c);
    if !Decodable(bits) {
      CodesNone(S, W, m, q, out, nlit, ndist, bits);
      BadEnds(c);
      ComesHere(S, W, limit, m, init, goal, a, c, r, looked);
    } else {
      LengthsComes(S, W, limit, m, init, out, c, bits);
      ComesLater(S, W, limit, m, init, goal, a, c, r, 0, looked);
    }
  }

  lemma CodesNone(S: nat, W: nat, m: nat, p: nat, out: seq<byte>, nlit: nat, ndist: nat, bits: Lengths)
    requires !Decodable(bits)
    ensures ReadCodes(S, W, m, p, out, nlit, ndist, bits) == (Fails, p, out) && CodesLooked(S, W, m, p, out, nlit, ndist, bits) == p
  {
    hide Decodable;
  }

  lemma ManyTables(W: nat, a: State, p: nat, S: nat)
    requires Good(W, a) && a.block.BTree? && a.block.table == Peek(S, p, 14)
    ensures a.block.table / 1024 < 16 && |a.blens| == BLENS_SIZE
  {
    SmallTable(a.block.table);
  }

  /** The bit length code is made. */
  lemma TreeStep(S: nat, W: nat, limit: nat, a: State, p: nat)
    requires Good(W, a) && BitsRead(S, p, a) && a.block.index == 4 + a.block.table / 1024 && a.pos <= 8 * limit
    ensures Good(W, Next(S, W, a)) && Reaches(S, W, limit, a, Next(S, W, a)) && a.block.index <= 19
    ensures var b, bits := Next(S, W, a), BitLengths(S, p, a.block.index);
            && b.pos == a.pos && b.hist == a.hist && b.last == a.last
            && b.block == if Decodable(bits) then DTree(a.block.table, 0, MakeTree(bits, BITS_ALPHABET, BITS_WIDTH)) else Bad
  {
    hide Good, Next, Need, Reaches, Terminal, Peek, Decodable, BitLengths, Border, MakeTree, ZeroRest;
    BTreeIs(S, W, a);
    OneStep(S, W, limit, a);
    AllBits(S, p, a.blens, a.block.index);
  }

  /** The code lengths, and what follows them. */
  lemma LengthsComes(S: nat, W: nat, limit: nat, m: nat, init: seq<byte>, out: seq<byte>, a: State, bits: Lengths)
    requires Good(W, a) && a.block.DTree? && a.block.index == 0 && Decodable(bits)
    requires a.block.tree == MakeTree(bits, BITS_ALPHABET, BITS_WIDTH)
    requires a.hist == init + out && |init| == W && a.pos <= m <= 8 * limit
    ensures var nlit, ndist := LiteralCount(a.block.table), DistanceCount(a.block.table);
            Comes(S, W, limit, m, init, AfterBlock(a.last), a, ReadCodes(S, W, m, a.pos, out, nlit, ndist, bits),
                  CodesLooked(S, W, m, a.pos, out, nlit, ndist, bits))
  {
    hide Good, Next, Need, Reaches, Terminal, Peek, Comes, Decodable, ReadLengths, LengthsLooked, ReadData, DataLooked, LiteralCount, DistanceCount, Starved, MaxLen, Width;
    LengthsRun(S, W, limit, m, a);
    assert a.blens[..0] == [];
    var nlit, ndist, tree, goal := LiteralCount(a.block.table), DistanceCount(a.block.table), a.block.tree, AfterBlock(a.last);
    var (v, end, lens) := ReadLengths(S, m, a.pos, [], nlit + ndist, bits);
    var first := LengthsLooked(S, m, a.pos, 0, nlit + ndist, tree);
    var r, looked := ReadCodes(S, W, m, a.pos, out, nlit, ndist, bits), CodesLooked(S, W, m, a.pos, out, nlit, ndist, bits);
    var b :| Reaches(S, W, limit, a, b) && b.hist == a.hist && LengthsAt(S, W, limit, m, a, b, (v, end, lens), first);
    if v.Ends? && first <= 8 * limit {
      ReachesGood(S, W, limit, a, b);
      DataComes(S, W, limit, m, init, out, b, lens);
      ComesLater(S, W, limit, m, init, goal, a, b, r, first, DataLooked(S, W, m, end, out, lens[..nlit], lens[nlit..]));
    } else {
      BadEnds(b);
      ComesHere(S, W, limit, m, init, goal, a, b, r, looked);
    }
  }

  /** With all code lengths read: the two codes are made, and the block's data decoded. */
  lemma DataComes(S: nat, W: nat, limit: nat, m: nat, init: seq<byte>, out: seq<byte>, a: State, lens: seq<nat>)
    requires Good(W, a) && a.block.DTree? && a.block.index == Total(a.block.table) == |lens| <= |a.blens| && a.blens[..|lens|] == lens
    requires a.hist == init + out && |init| == W && a.pos <= m <= 8 * limit
    ensures LiteralCount(a.block.table) <= |lens|
    ensures var lit, dist := lens[..LiteralCount(a.block.table)], lens[LiteralCount(a.block.table)..];
            Comes(S, W, limit, m, init, AfterBlock(a.last), a, ReadData(S, W, m, a.pos, out, lit, dist), DataLooked(S, W, m, a.pos, out, lit, dist))
  {
    hide Good, Next, Need, Reaches, Terminal, Comes, DynamicUsable, Decodable, ReadBlock, BlockLooked, MaxLen, Width, Starved;
    var n, goal := LiteralCount(a.block.table), AfterBlock(a.last);
    var lit, dist := lens[..n], lens[n..];
    assert a.blens[..n] == lit && a.blens[n..|lens|] == dist;
    BuildIs(S, W, a);
    DynamicIsKraft(lit, dist);
    OneStep(S, W, limit, a);
    var b := Next(S, W, a);
    var r, looked := ReadData(S, W, m, a.pos, out, lit, dist), DataLooked(S, W, m, a.pos, out, lit, dist);
    if CodesOK(lit, dist) {
      BlockRun(S, W, limit, m, init, out, b);
      ComesLater(S, W, limit, m, init, goal, a, b, r, 0, looked);
    } else {
      BadEnds(b);
      ComesHere(S, W, limit, m, init, goal, a, b, r, looked);
    }
  }

  // ----- Blocks, one after the other

  /** From a block's header to its end. */
  lemma OneComes(S: nat, W: nat, limit: nat, m: nat, init: seq<byte>, out: seq<byte>, a: State)
    requires Good(W, a) && a.block.Type? && a.hist == init + out && |init| == W && a.pos + 3 <= m <= 8 * limit
    ensures Good(W, Next(S, W, a)) && Reaches(S, W, limit, a, Next(S, W, a))
    ensures var t, b, p := Peek(S, a.pos, 3), Next(S, W, a), a.pos + 3;
            b.last == (t % 2 == 1) && Comes(S, W, limit, m, init, AfterBlock(b.last), b, ReadOne(S, W, m, p, out, t / 2), OneLooked(S, W, m, p, out, t / 2))
  {
    hide Good, Next, Need, Reaches, Terminal, Comes, Peek, ReadStored, ReadDynamic, DynamicLooked, ReadBlock, BlockLooked, RoundUp8,
      FixedLiteralLengths, FixedDistanceLengths, Starved;
    TypeIs(S, W, a);
    OneStep(S, W, limit, a);
    RoundInside(a.pos + 3, limit);
    var t, b, p := Peek(S, a.pos, 3), Next(S, W, a), a.pos + 3;
    ReachesRefl(S, W, limit, b);
    if t / 2 == 0 {
      StoredComes(S, W, limit, m, init, out, b, p);
    } else if t / 2 == 1 {
      BlockRun(S, W, limit, m, init, out, b);
    } else if t / 2 == 2 {
      DynamicComes(S, W, limit, m, init, out, b);
    } else {
      BadEnds(b);
      ComesHere(S, W, limit, m, init, AfterBlock(b.last), b, b, ReadOne(S, W, m, p, out, t / 2), p);
    }
  }

  /** Over the blocks of a whole stream the machine gets to where the reading of RFC 1951 ends, or waits. */
  lemma {:induction false} StreamRun(S: nat, W: nat, limit: nat, m: nat, init: seq<byte>, out: seq<byte>, a: State)
    requires Good(W, a) && a.block.Type? && a.hist == init + out && |init| == W && a.pos <= m <= 8 * limit
    ensures Comes(S, W, limit, m, init, Done, a, ReadStream(S, W, m, a.pos, out), StreamLooked(S, W, m, a.pos, out))
    decreases m - a.pos
  {
    hide Good, Next, Need, Reaches, Terminal, Comes, Peek, ReadOne, OneLooked, Starved;
    var r, looked := ReadStream(S, W, m, a.pos, out), StreamLooked(S, W, m, a.pos, out);
    if a.pos + 3 > m {
      ReachesRefl(S, W, limit, a);
      TypeIs(S, W, a);
      if m == 8 * limit { StarvedHere(S, W, limit, a); }
      ComesHere(S, W, limit, m, init, Done, a, a, r, looked);
    } else {
      OneComes(S, W, limit, m, init, out, a);
      var t, b := Peek(S, a.pos, 3), Next(S, W, a);
      var one, first := ReadOne(S, W, m, a.pos + 3, out, t / 2), OneLooked(S, W, m, a.pos + 3, out, t / 2);
      var c := ComesTo(S, W, limit, m, init, a, b, one, first);
      if !one.0.Ends? || first > 8 * limit {
        WaitOrEnd(S, W, limit, m, init, AfterBlock(b.last), a, c, one, first, r, looked);
      } else if t % 2 == 0 {
        StreamRun(S, W, limit, m, init, one.2, c);
        ComesLater(S, W, limit, m, init, Done, a, c, r, first, StreamLooked(S, W, m, one.1, one.2));
      } else {
        DryIs(S, W, limit, c);
        ReachesStep(S, W, limit, a, c, c.(block := Done));
        ComesHere(S, W, limit, m, init, Done, a, c.(block := Done), r, looked);
      }
    }
  }

  /** Where the machine comes after a block. */
  lemma ComesTo(S: nat, W: nat, limit: nat, m: nat, init: seq<byte>, a: State, b: State, r: (Reading, nat, seq<byte>), looked: nat)
    returns (c: State)
    requires Good(W, a) && Reaches(S, W, limit, a, b) && Good(W, b) && Comes(S, W, limit, m, init, AfterBlock(b.last), b, r, looked)
    ensures Reaches(S, W, limit, a, c) && Good(W, c) && Arrived(S, W, limit, m, init, AfterBlock(b.last), c, r, looked)
  {
    hide Good, Reaches, Arrived;
    c :| Reaches(S, W, limit, b, c) && Arrived(S, W, limit, m, init, AfterBlock(b.last), c, r, looked);
    ReachesTrans(S, W, limit, a, b, c);
    ReachesGood(S, W, limit, a, c);
  }

  /** Reading does not get beyond a block, or the decoder does not. */
  lemma WaitOrEnd(S: nat, W: nat, limit: nat, m: nat, init: seq<byte>, goal: Block, a: State, c: State,
                  one: (Reading, nat, seq<byte>), first: nat, r: (Reading, nat, seq<byte>), looked: nat)
    requires Good(W, a) && Reaches(S, W, limit, a, c) && Arrived(S, W, limit, m, init, goal, c, one, first)
    requires looked >= first && one.2 <= r.2 && (!one.0.Ends? ==> r == one && looked == first)
    requires !one.0.Ends? || first > 8 * limit
    ensures Comes(S, W, limit, m, init, Done, a, r, looked)
  {
    hide Good, Reaches, Terminal, Starved, Shown;
    assert Arrived(S, W, limit, m, init, Done, c, r, looked);
  }

  /** The decoder never looks more than a byte beyond what was read. */
  lemma {:induction false} StreamLookedBound(S: nat, W: nat, m: nat, p: nat, out: seq<byte>)
    ensures StreamLooked(S, W, m, p, out) <= ReadStream(S, W, m, p, out).1 + 8
    decreases m - p
  {
    hide Peek, ReadOne, OneLooked;
    if p + 3 <= m {
      var t := Peek(S, p, 3);
      OneLookedBound(S, W, m, p + 3, out, t / 2);
      var (v, q, o) := ReadOne(S, W, m, p + 3, out, t / 2);
      if v.Ends? && t % 2 == 0 { StreamLookedBound(S, W, m, q, o); }
    }
  }

  /** Code lengths are valid. */
  lemma {:induction false} LengthsValid(S: nat, m: nat, p: nat, lens: seq<nat>, total: nat, code: Lengths)
    requires |lens| <= total && ValidLengths(lens)
    ensures ValidLengths(ReadLengths(S, m, p, lens, total, code).2)
    decreases total - |lens|
  {
    hide FirstSymbol, Shr, RepeatCount, RepeatExtra, MaxLen, ReadLengths;
    if |lens| < total {
      LengthsRead(S, m, p, lens, total, code);
      var d := FirstSymbol(code, Shr(S, p));
      if d.Symbol? {
        var n := RepeatCount(S, p + code[d.sym], d.sym);
        if |lens| + n <= total {
          LengthsValid(S, m, p + code[d.sym] + RepeatExtra(d.sym), More(lens, n, d.sym), total, code);
        }
      }
    } else {
      LengthsDone(S, m, p, lens, Tree(code, 0, BITS_ALPHABET));
    }
  }

  lemma BitsWidth(S: nat, p: nat, n: nat)
    requires n <= 19
    ensures var bits := BitLengths(S, p, n);
            ValidLengths(bits) && (MaxLen(bits) > 0 ==> MakeTree(bits, BITS_ALPHABET, BITS_WIDTH).l <= 8)
  {
    BitsSmall(S, p, n);
    SmallMax(BitLengths(S, p, n), 7);
  }

  lemma {:induction false} BitsSmall(S: nat, p: nat, n: nat)
    requires n <= 19
    ensures forall s :: 0 <= s < 19 ==> BitLengths(S, p, n)[s] <= 7
  {
    hide Peek;
    if n > 0 {
      SmallTable(0);
      BitsSmall(S, p, n - 1);
    }
  }

  lemma DataLookedBound(S: nat, W: nat, m: nat, p: nat, out: seq<byte>, lit: Lengths, dist: Lengths)
    requires ValidLengths(lit) && ValidLengths(dist) && |lit| <= 286 && |dist| <= 30
    ensures DataLooked(S, W, m, p, out, lit, dist) <= ReadData(S, W, m, p, out, lit, dist).1 + 8
  {
    hide ReadBlock, BlockLooked, Decodable, MaxLen, GoodTree;
    if CodesOK(lit, dist) {
      TreesGood(lit, dist);
      BlockLookedBound(S, W, m, p, out, MakeTree(lit, LITERALS, LITERAL_WIDTH), DistanceTree(dist));
    }
  }

  lemma CodesLookedBound(S: nat, W: nat, m: nat, p: nat, out: seq<byte>, nlit: nat, ndist: nat, bits: Lengths)
    requires MaxLen(bits) > 0 ==> MakeTree(bits, BITS_ALPHABET, BITS_WIDTH).l <= 8
    requires nlit <= 286 && ndist <= 30
    ensures CodesLooked(S, W, m, p, out, nlit, ndist, bits) <= ReadCodes(S, W, m, p, out, nlit, ndist, bits).1 + 8
  {
    hide ReadData, DataLooked, ReadLengths, LengthsLooked, MaxLen, Decodable, Width;
    if Decodable(bits) {
      BitsSome(bits);
      LengthsLookedBound(S, m, p, [], nlit + ndist, MakeTree(bits, BITS_ALPHABET, BITS_WIDTH));
      LengthsValid(S, m, p, [], nlit + ndist, bits);
      var (v, end, lens) := ReadLengths(S, m, p, [], nlit + ndist, bits);
      if v.Ends? { DataLookedBound(S, W, m, end, out, lens[..nlit], lens[nlit..]); }
    }
  }

  lemma BitsSome(bits: Lengths)
    requires Decodable(bits)
    ensures MaxLen(bits) > 0
  {
  }

  lemma OneLookedBound(S: nat, W: nat, m: nat, p: nat, out: seq<byte>, kind: nat)
    ensures OneLooked(S, W, m, p, out, kind) <= ReadOne(S, W, m, p, out, kind).1 + 8
  {
    hide ReadBlock, BlockLooked, Peek, SmallPeek, ReadCodes, CodesLooked, FixedLiteralLengths, FixedDistanceLengths, BitLengths;
    FixedGood(Start);
    BlockLookedBound(S, W, m, p, out, FixedLiteralTree(), FixedDistanceTree());
    if kind == 2 && p + 14 <= m {
      var hlit, hdist, n := Peek(S, p, 5), Peek(S, p + 5, 5), SmallPeek(S, p + 10) + 4;
      BitsWidth(S, p + 14, n);
      if hlit + 257 <= 286 && hdist + 1 <= 30 {
        CodesLookedBound(S, W, m, p + 14 + 3 * n, out, hlit + 257, hdist + 1, BitLengths(S, p + 14, n));
      }
    }
  }

  // ----- What the decoder puts out

  /** Decoding a stream from its start gives what the reading of RFC 1951 gives, provided that the bits the
    * decoder looks at are all there: the same output and the same end; an error where the reading fails;
    * all output there is where the input is cut off.  Where a distance is not allowed it goes on, with the
    * byte that it finds in the window.  If it would look beyond the input, it waits, with at most the
    * reading's output. */
  lemma OutputIsRfc(S: nat, W: nat, limit: nat, a: State)
    requires Good(W, a) && a.block.Type? && a.pos == 0 && |a.hist| == W
    ensures var (v, end, out) := ReadStream(S, W, 8 * limit, 0, []);
            var b, output := Finish(S, W, limit, a), Output(S, W, limit, a);
            if StreamLooked(S, W, 8 * limit, 0, []) > 8 * limit then Starved(S, W, limit, b) && output <= out
            else match v
              case Ends => output == out && b.block.Done? && b.pos == end
              case Cut => output == out && Starved(S, W, limit, b)
              case Forbidden(d) => Shown(W, a.hist + out, d, a.hist + output)
              case Unspecified => out <= output
              case _ => output == out && Terminal(b) && !b.block.Done?
  {
    hide Good, Next, Need, Reaches, ReadStream, StreamLooked, Finish, Starved, Terminal, BackDistance;
    GoodSize(W, a);
    assert a.hist + [] == a.hist;
    StreamRun(S, W, limit, 8 * limit, a.hist, [], a);
    var r, looked := ReadStream(S, W, 8 * limit, 0, []), StreamLooked(S, W, 8 * limit, 0, []);
    var b :| Reaches(S, W, limit, a, b) && Arrived(S, W, limit, 8 * limit, a.hist, Done, b, r, looked);
    OnTheWay(S, W, limit, a, b);
    Stops(S, W, limit, b);
    GoodSize(W, Finish(S, W, limit, a));
    OutputWithin(a.hist, r.2, Finish(S, W, limit, a).hist);
  }

  lemma OutputWithin(init: seq<byte>, out: seq<byte>, hist: seq<byte>)
    ensures |init| <= |hist| && hist <= init + out ==> hist[|init|..] <= out
  {
    if |init| <= |hist| && hist <= init + out { assert hist == (init + out)[..|hist|]; }
  }

  lemma Stops(S: nat, W: nat, limit: nat, b: State)
    requires Good(W, b)
    ensures Starved(S, W, limit, b) || Terminal(b) || b.block.Done? ==> !Enabled(S, W, limit, b)
  {
    hide Good;
  }

  /** Over a stream whose distances are allowed the decoder gets to the end if and only if the stream ends
    * and all the bits looked at are there; which they are if at least a byte follows. */
  lemma DoneExactly(S: nat, W: nat, limit: nat, a: State)
    requires Good(W, a) && a.block.Type? && a.pos == 0 && |a.hist| == W
    ensures var (v, end, out) := ReadStream(S, W, 8 * limit, 0, []);
            var looked := StreamLooked(S, W, 8 * limit, 0, []);
            && looked <= end + 8
            && (!v.Forbidden? && !v.Unspecified? ==> (Finish(S, W, limit, a).block.Done? <==> v.Ends? && looked <= 8 * limit))
  {
    hide Good, ReadStream, StreamLooked, Finish;
    OutputIsRfc(S, W, limit, a);
    StreamLookedBound(S, W, 8 * limit, 0, []);
  }

  /** The decoder is never more than a byte of input behind: it has put out what can be read from all but
    * the last. */
  lemma OneByteBehind(S: nat, W: nat, limit: nat, a: State)
    requires Good(W, a) && a.block.Type? && a.pos == 0 && |a.hist| == W
    ensures ReadStream(S, W, 8 * limit, 0, []).2 <= Output(S, W, limit + 1, a)
  {
    hide Good, Next, Need, Reaches, ReadStream, StreamLooked, Finish, Starved, Terminal, BackDistance;
    GoodSize(W, a);
    assert a.hist + [] == a.hist;
    StreamRun(S, W, limit + 1, 8 * limit, a.hist, [], a);
    StreamLookedBound(S, W, 8 * limit, 0, []);
    var r, looked := ReadStream(S, W, 8 * limit, 0, []), StreamLooked(S, W, 8 * limit, 0, []);
    var b :| Reaches(S, W, limit + 1, a, b) && Arrived(S, W, limit + 1, 8 * limit, a.hist, Done, b, r, looked);
    OnTheWay(S, W, limit + 1, a, b);
    OutputFrom(a.hist, r.2, Finish(S, W, limit + 1, a).hist);
  }

  lemma OutputFrom(init: seq<byte>, out: seq<byte>, hist: seq<byte>)
    requires init + out <= hist
    ensures out <= hist[|init|..]
  {
    assert out == (init + out)[|init|..];
  }

  /** What was in the window before does not matter, as long as the distances are allowed. */
  lemma WindowIrrelevant(S: nat, W: nat, limit: nat, a: State, b: State)
    requires Good(W, a) && a.block.Type? && a.pos == 0 && |a.hist| == W
    requires Good(W, b) && b.block.Type? && b.pos == 0 && |b.hist| == W
    ensures var v := ReadStream(S, W, 8 * limit, 0, []).0;
            !v.Forbidden? && !v.Unspecified? && StreamLooked(S, W, 8 * limit, 0, []) <= 8 * limit
            ==> Output(S, W, limit, a) == Output(S, W, limit, b)
  {
    hide Good, ReadStream, StreamLooked, Finish, Output;
    OutputIsRfc(S, W, limit, a);
    OutputIsRfc(S, W, limit, b);
  }

  /** And only then: otherwise the first byte copied is one of the window's initial content, unless a distance
    * beyond the window comes out among the output. */
  lemma WindowShows(S: nat, W: nat, limit: nat, a: State, c: byte)
    requires Good(W, a) && a.block.Type? && a.pos == 0 && |a.hist| == W
    ensures var (v, end, out) := ReadStream(S, W, 8 * limit, 0, []);
            v.Forbidden? && StreamLooked(S, W, 8 * limit, 0, []) <= 8 * limit && BackDistance(W, v.dist) > |out| ==>
              var k := W + |out| - BackDistance(W, v.dist);
              && 0 <= k < W && (a.hist[k] == c ==> |out| < |Output(S, W, limit, a)| && Output(S, W, limit, a)[|out|] == c)
  {
    hide Good, ReadStream, StreamLooked, Finish, Output, Starved, BackDistance;
    GoodSize(W, a);
    OutputIsRfc(S, W, limit, a);
  }
}
