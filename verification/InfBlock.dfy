/** The block decoder: headers, stored blocks and code tables. */
module InfBlock {
  import opened Bits
  import opened Canonical
  import opened HuftTables
  import opened HuftLabels
  import opened HuftSpace
  import opened HuftBuild
  import opened InflateTrees
  import opened Deflate
  import opened DeflateRun
  import opened InfUtil
  import opened InfState
  import opened InfLookup
  import opened InfFast
  import opened InfCodes

  // ----- Block type and stored blocks

  lemma RoundDump(n: nat, k: nat)
    requires k <= 8 * n
    ensures RoundUp8(8 * n - k) == 8 * n - k + k % 8
    ensures (k - k % 8) % 8 == 0
  {
  }

  /** What the machine does with the three bits of a block header. */
  lemma TypeIs(S: nat, W: nat, a: State)
    requires Good(W, a) && a.block.Type?
    ensures Need(S, W, a) == 3 && !Terminal(a)
    ensures Good(W, Next(S, W, a))
    ensures var t, b := Peek(S, a.pos, 3), Next(S, W, a);
            && t < 8 && b.hist == a.hist && b.blens == a.blens && b.last == (t % 2 == 1)
            && b.pos == (if t / 2 == 0 then RoundUp8(a.pos + 3) else a.pos + 3)
            && b.block == (if t / 2 == 0 then Lens
                           else if t / 2 == 1 then InCodes(FixedLiteralTree(), FixedDistanceTree(), Start)
                           else if t / 2 == 2 then Table else Bad)
  {
    hide Good, GoodCodes, Peek, FixedLiteralTree, FixedDistanceTree, RoundUp8;
    PeekThree(S, a.pos);
    NextGood(S, W, a);
  }

  /** Everything but the mode. */
  ghost predicate Sound(s: Inflater)
    reads s, s.window, s.blens
  {
    && s.InputOK() && s.WindowOK() && s.SpaceOK()
    && Good(s.W, s.abs) && s.last == s.abs.last
  }

  lemma ValidIs(s: Inflater)
    ensures Valid(s) <==> Sound(s) && (s.mode.InStored? ==> s.returned == 0)
                          && ModeMatch(s.hufts[..], s.hl, s.hd, s.S(), s.At(), s.bitk, s.mode, s.abs)
  {
    hide Good, Buffer, Ring, Delivered, ModeMatch, Stream;
  }

  /** Read the type of the next block. */
  method CaseType(s: Inflater) returns (ok: bool)
    requires Valid(s) && s.mode.InType?
    modifies s`nextIn, s`availIn, s`bitb, s`bitk, s`returned, s`mode, s`abs, s`last, s`hl, s`hd, s.hufts, s.work
    ensures Valid(s) && s.Limit() == old(s.Limit()) && AtRest(s)
    ensures ok ==> Steps(s.S(), s.W, s.Limit(), old(s.abs), s.abs)
    ensures !ok ==> s.abs == old(s.abs) && s.availIn == 0 && Starved(s.S(), s.W, s.Limit(), s.abs)
  {
    hide Shl, Shr, Low, Rev, MaxLen, LenAt, IsTable, Next, Need, Good, TreesReady,
      Buffer, Ring, Delivered, Peek, Stream, FixedLiteralTree, FixedDistanceTree, Steps, Starved, RoundUp8, Valid;
    ghost var a := s.abs;
    ValidIs(s);
    TypeIs(s.S(), s.W, a);
    StepsIntro(s.S(), s.W, s.Limit(), a);
    ok := NeedBits(s, 3);
    if ok {
      var t := PeekBits(s, 3);
      DumpBits(s, 3);
      s.last := t % 2 == 1;
      s.abs := Next(s.S(), s.W, a);
      EnterBlock(s, t / 2);
    } else {
      ValidIs(s);
    }
  }

  /** Act on the block type `t`. */
  method EnterBlock(s: Inflater, t: nat)
    requires Sound(s) && s.bitk <= 15
    requires t == 0 ==> s.abs.block == Lens && s.At() >= 0 && s.abs.pos == RoundUp8(s.At())
    requires t != 0 ==> s.At() == s.abs.pos
    requires t == 1 ==> s.abs.block == InCodes(FixedLiteralTree(), FixedDistanceTree(), Start)
    requires t == 2 ==> s.abs.block == Table
    requires t > 2 ==> s.abs.block == Bad
    modifies s`bitb, s`bitk, s`mode, s`hl, s`hd, s.hufts, s.work
    ensures Valid(s) && AtRest(s)
  {
    hide Shl, Shr, Low, Rev, MaxLen, IsTable, Good, TreesReady,
      Buffer, Ring, Delivered, Stream, FixedLiteralTree, FixedDistanceTree, RoundUp8, Valid;
    if t == 0 {
      ToByteBoundary(s);
      SetMode(s, InLens);
    } else if t == 1 {
      SetFixed(s);
    } else if t == 2 {
      SetMode(s, InTable);
    } else {
      SetMode(s, InBad);
    }
  }

  /** Go on in mode `m`. */
  method SetMode(s: Inflater, m: BlockMode)
    requires Sound(s) && (m.InStored? ==> s.returned == 0)
    requires ModeMatch(s.hufts[..], s.hl, s.hd, s.S(), s.At(), s.bitk, m, s.abs)
    modifies s`mode
    ensures Valid(s) && s.mode == m
  {
    hide Good, Buffer, Ring, Delivered, ModeMatch, Stream;
    s.mode := m;
  }

  /** Go to the next byte boundary. */
  method ToByteBoundary(s: Inflater)
    requires s.InputOK()
    modifies s`bitb, s`bitk
    ensures s.InputOK() && old(s.At()) >= 0 && s.At() == RoundUp8(old(s.At())) && s.bitk % 8 == 0
    ensures s.bitk <= old(s.bitk)
  {
    hide Buffer, Stream, RoundUp8;
    BufferBound(s.S(), s.nextIn, s.bitk, s.bitb, s.returned);
    RoundDump(s.nextIn, s.bitk);
    DumpBits(s, s.bitk % 8);
  }

  ghost predicate AtRest(s: Inflater)
    reads s
  {
    (s.mode.InHuffman? ==> !s.mode.codes.AtEnd?) && (s.mode.InDone? ==> s.read == s.write)
  }

  lemma PeekThree(S: nat, pos: nat)
    ensures Peek(S, pos, 3) < 8
  {
    assert Pow2(3) == 8;
  }

  /** Set up the fixed codes. */
  method SetFixed(s: Inflater)
    requires Sound(s) && s.bitk <= 15 && s.At() == s.abs.pos
    requires s.abs.block == InCodes(FixedLiteralTree(), FixedDistanceTree(), Start)
    modifies s`mode, s`hl, s`hd, s.hufts, s.work
    ensures Valid(s) && AtRest(s)
  {
    hide IsTable, MaxLen, Shl, Good, Buffer, Ring, Delivered, Stream, Valid;
    var bl, bd, tl, td;
    ghost var hl, hd;
    bl, bd, tl, td, hl, hd := TreesFixed(s.hufts, s.work);
    s.hl, s.hd := hl, hd;
    SetMode(s, InHuffman(bl, bd, tl, td, AtStart));
  }

  lemma LensIs(S: nat, W: nat, a: State)
    requires Good(W, a) && a.block.Lens?
    ensures Need(S, W, a) == 32 && !Terminal(a)
    ensures Good(W, Next(S, W, a))
    ensures var v := Peek(S, a.pos, 32);
            Next(S, W, a) == if Shr(v, 16) != 0xffff - Low(v, 16) then a.(block := Bad)
                             else a.(pos := a.pos + 32,
                                     block := if Low(v, 16) != 0 then Stored(Low(v, 16)) else AfterBlock(a.last))
  {
    hide Good, Peek;
    NextGood(S, W, a);
  }

  /** All bits of the buffer were used. */
  lemma BufferEmpty(S: nat, p: nat)
    ensures Buffer(S, p, 0, 0, 0)
  {
  }

  /** Get the length of a stored block, sent twice. */
  method CaseLens(s: Inflater) returns (ok: bool)
    requires Valid(s) && s.mode.InLens?
    modifies s`nextIn, s`availIn, s`bitb, s`bitk, s`returned, s`mode, s`abs
    ensures Valid(s) && s.Limit() == old(s.Limit()) && AtRest(s)
    ensures ok ==> Steps(s.S(), s.W, s.Limit(), old(s.abs), s.abs)
    ensures !ok ==> s.abs == old(s.abs) && s.availIn == 0 && Starved(s.S(), s.W, s.Limit(), s.abs)
  {
    hide Shl, Shr, Low, Rev, MaxLen, IsTable, Next, Need, Good, TreesReady,
      Buffer, Ring, Delivered, Peek, Stream, Steps, Starved, Valid;
    ghost var a := s.abs;
    ValidIs(s);
    LensIs(s.S(), s.W, a);
    StepsIntro(s.S(), s.W, s.Limit(), a);
    ok := NeedBits(s, 32);
    if ok {
      var v := PeekBits(s, 32);
      s.abs := Next(s.S(), s.W, a);
      EnterStored(s, v, a.pos);
    } else {
      ValidIs(s);
    }
  }

  /** Act on the length `v` of a stored block. */
  method EnterStored(s: Inflater, v: nat, ghost pos: nat)
    requires Sound(s) && s.bitk == 32 && s.At() == pos
    requires s.abs.block == (if Shr(v, 16) != 0xffff - Low(v, 16) then Bad
                             else if Low(v, 16) != 0 then Stored(Low(v, 16)) else AfterBlock(s.abs.last))
    requires s.abs.pos == (if Shr(v, 16) != 0xffff - Low(v, 16) then pos else pos + 32)
    modifies s`bitb, s`bitk, s`returned, s`mode
    ensures Valid(s) && AtRest(s)
  {
    hide Shl, Shr, Low, Rev, MaxLen, IsTable, Good, TreesReady, Buffer, Ring, Delivered, Stream, Valid;
    if Shr(v, 16) != 0xffff - Low(v, 16) {
      SetMode(s, InBad);
    } else {
      // dump bits
      s.bitb, s.bitk, s.returned := 0, 0, 0;
      BufferEmpty(s.S(), s.nextIn);
      SetMode(s, if Low(v, 16) != 0 then InStored(Low(v, 16)) else if s.last then InDry else InType);
    }
  }

  lemma StoredIs(S: nat, W: nat, limit: nat, a: State, v: byte)
    requires Good(W, a) && a.block.Stored?
    requires v == Peek(S, a.pos, 8)
    ensures Need(S, W, a) == 8 && !Terminal(a)
    ensures Good(W, Next(S, W, a))
    ensures Next(S, W, a) == a.(pos := a.pos + 8, hist := a.hist + [v],
                                block := if a.block.left > 1 then Stored(a.block.left - 1) else AfterBlock(a.last))
  {
    hide Good, Peek;
    NextGood(S, W, a);
  }

  /** Copy one byte of a stored block from the input to the window. */
  method StoreByte(s: Inflater)
    requires Valid(s) && s.mode.InStored? && s.availIn > 0 && Wavail(s) > 0
    modifies s`nextIn, s`availIn, s`write, s`mode, s`abs, s.window
    ensures Valid(s) && s.Limit() == old(s.Limit()) && AtRest(s)
    ensures s.availIn == old(s.availIn) - 1 && Wavail(s) == old(Wavail(s)) - 1
    ensures if old(s.mode.left) > 1 then s.mode == InStored(old(s.mode.left) - 1) else s.mode == AfterMode(s.last)
    ensures Steps(s.S(), s.W, s.Limit(), old(s.abs), s.abs)
  {
    hide Shl, Rev, MaxLen, IsTable, Next, Need, Good, TreesReady,
      Ring, Delivered, Stream, Steps, Valid;
    ghost var a := s.abs;
    ValidIs(s);
    var v := s.input[s.nextIn];
    StreamByte(s.input, s.nextIn);
    StoredIs(s.S(), s.W, s.Limit(), a, v);
    StepsIntro(s.S(), s.W, s.Limit(), a);
    OutByte(s, v, Next(s.S(), s.W, a));
    s.nextIn, s.availIn := s.nextIn + 1, s.availIn - 1;
    s.mode := if s.mode.left > 1 then InStored(s.mode.left - 1) else AfterMode(s.last);
    ValidIs(s);
  }

  /** The mode after a block. */
  function AfterMode(last: bool): BlockMode {
    if last then InDry else InType
  }

  /** Copy what there is of a stored block, as far as there is room. */
  method CaseStored(s: Inflater) returns (ok: bool)
    requires Valid(s) && s.mode.InStored?
    modifies s`nextIn, s`availIn, s`read, s`write, s`availOut, s`delivered, s`mode, s`abs, s.window
    ensures Valid(s) && s.Limit() == old(s.Limit()) && AtRest(s)
    ensures OutputMoves(old(s.availOut), old(s.delivered), s.availOut, s.delivered)
    ensures Good(s.W, old(s.abs)) && Reaches(s.S(), s.W, s.Limit(), old(s.abs), s.abs)
    ensures ok ==> s.abs.pos > old(s.abs.pos)
    ensures !ok ==> s.abs == old(s.abs) && Waits(s)
  {
    hide Shl, Shr, Low, Rev, MaxLen, IsTable, Next, Need, Good, TreesReady,
      Buffer, Ring, Delivered, Stream, Steps, Starved, Valid, Reaches, Peek;
    ghost var a := s.abs;
    ghost var limit := s.Limit();
    StoredStarved(s);
    ReachesRefl(s.S(), s.W, limit, a);
    if s.availIn == 0 {
      return false;
    }
    ok := NeedOutValid(s);
    if !ok {
      return;
    }
    var t := s.mode.left;
    if t > s.availIn { t := s.availIn; }
    if t > Wavail(s) { t := Wavail(s); }
    var i := 0;
    while i < t
      invariant 0 <= i <= t && Valid(s) && s.Limit() == limit && AtRest(s)
      invariant i < t ==> s.mode.InStored? && t - i <= s.mode.left && t - i <= s.availIn && t - i <= Wavail(s)
      invariant Reaches(s.S(), s.W, limit, a, s.abs)
      invariant s.abs.pos >= a.pos && (i > 0 ==> s.abs.pos > a.pos)
      invariant OutputMoves(old(s.availOut), old(s.delivered), s.availOut, s.delivered)
    {
      ghost var b := s.abs;
      StoredStarved(s);
      StoreByte(s);
      StepsPos(s.S(), s.W, limit, b, s.abs);
      ReachesStep(s.S(), s.W, limit, a, b, s.abs);
      i := i + 1;
    }
  }

  lemma StepsPos(S: nat, W: nat, limit: nat, a: State, b: State)
    requires Steps(S, W, limit, a, b)
    ensures a.pos <= b.pos && (a.block.Stored? ==> a.pos < b.pos)
  {
    hide Good, Peek, Need;
    NextWithinNeed(S, W, a);
  }

  lemma StoredStarved(s: Inflater)
    requires Valid(s) && s.mode.InStored?
    ensures Good(s.W, s.abs) && s.mode.left > 0 && s.abs.block.Stored? && s.read < s.W && s.write <= s.W
    ensures s.availIn == 0 ==> Starved(s.S(), s.W, s.Limit(), s.abs)
  {
    hide Shl, Shr, Low, Rev, MaxLen, IsTable, Next, TreesReady, Ring, Delivered, Stream, Starved, Peek;
    StepsIntro(s.S(), s.W, s.Limit(), s.abs);
  }

  /** Making room changes nothing the machine can see. */
  method NeedOutValid(s: Inflater) returns (ok: bool)
    requires Valid(s)
    modifies s`read, s`write, s`availOut, s`delivered
    ensures Valid(s) && s.read < s.W && s.write <= s.W && (ok ==> Wavail(s) > 0)
    ensures !ok ==> s.availOut == 0 && Pending(s.W, s.read, s.write) >= s.W - 1
    ensures OutputMoves(old(s.availOut), old(s.delivered), s.availOut, s.delivered)
  {
    hide Shl, Shr, Low, Rev, MaxLen, IsTable, Good, TreesReady, Buffer, Ring, Delivered, Stream, ModeMatch;
    ok := NeedOut(s);
  }

  /** Flushing changes nothing the machine can see. */
  method FlushValid(s: Inflater)
    requires Valid(s)
    modifies s`read, s`write, s`availOut, s`delivered
    ensures Valid(s) && Drained(s)
    ensures OutputMoves(old(s.availOut), old(s.delivered), s.availOut, s.delivered)
    ensures Pending(s.W, s.read, s.write) <= Pending(s.W, old(s.read), old(s.write))
    ensures old(s.availOut) == 0 ==> s.availOut == 0 && Pending(s.W, s.read, s.write) == Pending(s.W, old(s.read), old(s.write))
  {
    hide Shl, Shr, Low, Rev, MaxLen, IsTable, Good, TreesReady, Buffer, Ring, Delivered, Stream, ModeMatch;
    Flush(s);
  }

  // ----- Dynamic blocks

  lemma TableIs(S: nat, W: nat, a: State)
    requires Good(W, a) && a.block.Table?
    ensures Need(S, W, a) == 14 && !Terminal(a)
    ensures Good(W, Next(S, W, a))
    ensures var t := Peek(S, a.pos, 14);
            Next(S, W, a) == if TooManySymbols(t) then a.(block := Bad)
                             else a.(pos := a.pos + 14, block := BTree(t, 0))
  {
    hide Good, Peek;
    NextGood(S, W, a);
  }

  /** Get the table lengths. */
  method CaseTable(s: Inflater) returns (ok: bool)
    requires Valid(s) && s.mode.InTable?
    modifies s`nextIn, s`availIn, s`bitb, s`bitk, s`returned, s`mode, s`abs
    ensures Valid(s) && s.Limit() == old(s.Limit()) && AtRest(s)
    ensures ok ==> Steps(s.S(), s.W, s.Limit(), old(s.abs), s.abs)
    ensures !ok ==> s.abs == old(s.abs) && s.availIn == 0 && Starved(s.S(), s.W, s.Limit(), s.abs)
  {
    hide Shl, Shr, Low, Rev, MaxLen, IsTable, Next, Need, Good, TreesReady,
      Buffer, Ring, Delivered, Peek, Stream, Steps, Starved, Valid, TooManySymbols;
    ghost var a := s.abs;
    ValidIs(s);
    TableIs(s.S(), s.W, a);
    StepsIntro(s.S(), s.W, s.Limit(), a);
    ok := NeedBits(s, 14);
    if ok {
      var t := PeekBits(s, 14);
      s.abs := Next(s.S(), s.W, a);
      if TooManySymbols(t) {
        SetMode(s, InBad);
      } else {
        DumpBits(s, 14);
        SetMode(s, InBTree(t, 0));
      }
    } else {
      ValidIs(s);
    }
  }

  lemma BTreeIs(S: nat, W: nat, a: State)
    requires Good(W, a) && a.block.BTree?
    ensures !Terminal(a) && Good(W, Next(S, W, a))
    ensures var BTree(table, index) := a.block;
            index <= 19 && |a.blens| == BLENS_SIZE &&
            if index < 4 + table / 1024 then
              && index < 19 && Need(S, W, a) == 3 && Peek(S, a.pos, 3) <= 7
              && Next(S, W, a) == a.(pos := a.pos + 3, blens := a.blens[Border(index) := Peek(S, a.pos, 3)],
                                     block := BTree(table, index + 1))
            else
              && Need(S, W, a) == 0
              && var b := ZeroRest(a.blens, index);
                 && (forall i :: 0 <= i < 19 ==> b[..19][i] <= 7)
                 && Next(S, W, a) == a.(blens := b,
                      block := if Decodable(b[..19]) then DTree(table, 0, MakeTree(b[..19], BITS_ALPHABET, BITS_WIDTH))
                               else Bad)
  {
    hide Shl, Shr, Low, MaxLen, OverSubscribed, Incomplete, Space, MinLenFrom, Border, Unborder, Peek, GoodBits, Decodable;
    var BTree(table, index) := a.block;
    SmallTable(table);
    NextGood(S, W, a);
    if index >= 4 + table / 1024 {
      var b := ZeroRest(a.blens, index);
      forall i | 0 <= i < 19 ensures b[..19][i] <= 7 {
        UnborderOnto(i);
        assert b[Border(Unborder(i))] <= 7;
      }
    }
  }

  /** The lengths not transmitted are zero. */
  method ZeroFill(blens: array<nat>, index: nat)
    requires blens.Length == BLENS_SIZE && index <= 19
    modifies blens
    ensures blens[..] == ZeroRest(old(blens[..]), index)
  {
    hide Border;
    var i := index;
    while i < 19
      invariant index <= i <= 19
      invariant ZeroRest(blens[..], i) == ZeroRest(old(blens[..]), index)
    {
      ghost var b := blens[..];
      blens[Border(i)] := 0;
      assert blens[..] == b[Border(i) := 0];
      i := i + 1;
    }
  }

  /** Get the lengths of the bit length codes, then build their table. */
  method CaseBTree(s: Inflater) returns (ok: bool)
    requires Valid(s) && s.mode.InBTree?
    modifies s`nextIn, s`availIn, s`bitb, s`bitk, s`returned, s`mode, s`abs, s`hl, s.blens, s.hufts, s.work
    ensures Valid(s) && s.Limit() == old(s.Limit()) && AtRest(s)
    ensures ok ==> Steps(s.S(), s.W, s.Limit(), old(s.abs), s.abs)
    ensures !ok ==> s.abs == old(s.abs) && s.availIn == 0 && Starved(s.S(), s.W, s.Limit(), s.abs)
  {
    hide Valid, Steps, Starved, AtRest;
    if s.mode.index < 4 + s.mode.table / 1024 {
      ok := TakeBitLength(s);
    } else {
      BuildBitTree(s);
      ok := true;
    }
  }

  /** Get one length of a bit length code. */
  method TakeBitLength(s: Inflater) returns (ok: bool)
    requires Valid(s) && s.mode.InBTree? && s.mode.index < 4 + s.mode.table / 1024
    modifies s`nextIn, s`availIn, s`bitb, s`bitk, s`returned, s`mode, s`abs, s.blens
    ensures Valid(s) && s.Limit() == old(s.Limit()) && AtRest(s)
    ensures ok ==> Steps(s.S(), s.W, s.Limit(), old(s.abs), s.abs)
    ensures !ok ==> s.abs == old(s.abs) && s.availIn == 0 && Starved(s.S(), s.W, s.Limit(), s.abs)
  {
    hide Shl, Shr, Low, Rev, MaxLen, IsTable, Next, Need, Good, TreesReady,
      Buffer, Ring, Delivered, Peek, Stream, Steps, Starved, Valid, Border, ZeroRest, Decodable;
    ghost var a := s.abs;
    ValidIs(s);
    BTreeIs(s.S(), s.W, a);
    StepsIntro(s.S(), s.W, s.Limit(), a);
    var InBTree(table, index) := s.mode;
    ok := NeedBits(s, 3);
    if ok {
      var v := PeekBits(s, 3);
      s.blens[Border(index)] := v;
      DumpBits(s, 3);
      s.abs := Next(s.S(), s.W, a);
      SetMode(s, InBTree(table, index + 1));
    } else {
      ValidIs(s);
    }
  }

  /** All lengths of bit length codes are known: build their table. */
  method BuildBitTree(s: Inflater)
    requires Valid(s) && s.mode.InBTree? && s.mode.index >= 4 + s.mode.table / 1024
    modifies s`mode, s`abs, s`hl, s.blens, s.hufts, s.work
    ensures Valid(s) && AtRest(s)
    ensures Steps(s.S(), s.W, s.Limit(), old(s.abs), s.abs)
  {
    hide Shl, Shr, Low, Rev, MaxLen, IsTable, Next, Need, Good, TreesReady,
      Buffer, Ring, Delivered, Peek, Stream, Steps, Starved, Valid, Border, ZeroRest, Decodable;
    ghost var a := s.abs;
    ValidIs(s);
    BTreeIs(s.S(), s.W, a);
    StepsIntro(s.S(), s.W, s.Limit(), a);
    BufferBound(s.S(), s.nextIn, s.bitk, s.bitb, s.returned);
    ZeroFill(s.blens, s.mode.index);
    s.abs := Next(s.S(), s.W, a);
    BuildBits(s, s.mode.table);
  }

  /** Build the table of the bit length codes. */
  method BuildBits(s: Inflater, table: nat)
    requires Sound(s) && s.bitk <= 15 && s.At() == s.abs.pos
    requires forall i :: 0 <= i < 19 ==> s.abs.blens[i] <= 7
    requires var lens := s.abs.blens[..19];
             s.abs.block == if Decodable(lens) then DTree(table, 0, MakeTree(lens, BITS_ALPHABET, BITS_WIDTH)) else Bad
    modifies s`mode, s`hl, s.hufts, s.work
    ensures Valid(s) && AtRest(s)
  {
    hide Shl, Shr, Low, Rev, MaxLen, IsTable, Good, TreesReady, Buffer, Ring, Delivered, Stream, Valid, Decodable;
    var lens := s.blens[..19];
    assert lens == s.abs.blens[..19];
    var ok, tb, bb;
    ghost var hn;
    ok, tb, bb, hn := TreesBits(lens, s.hufts, s.work);
    s.hl := hn;
    if ok {
      SetMode(s, InDTree(table, 0, bb, tb));
    } else {
      SetMode(s, InBad);
    }
  }

  /** In a complete code every stream starts with a symbol's code. */
  lemma CompleteDecodes(lens: Lengths, x: nat)
    requires ValidLengths(lens) && MaxLen(lens) > 0 && !OverSubscribed(lens) && !Incomplete(lens)
    ensures SymbolAt(lens, Pos(lens, x)).Symbol?
  {
    hide Shl, Shr, Low, Rev, MaxLen, OverSubscribed, Incomplete, Count;
    var g, v := MaxLen(lens), Pos(lens, x);
    KraftAtMax(lens);
    RevBound(g, x);
    var k := LenAt(lens, v);
    var e := v - End(lens, g, k - 1);
    ShrQuotient(e, g - k, Shr(e, g - k));
    if Shr(e, g - k) >= Count(lens, k) { ShlMono(Count(lens, k), Shr(e, g - k), g - k); }
  }

  /** What a lookup in the bit length table finds. */
  lemma BitsLookup(T: seq<Huft>, tree: Tree, tb: nat, x: nat)
    requires GoodBits(tree) && IsTable(T, tree, tb, tree.l, 0, 0)
    ensures tb + Low(x, tree.l) < |T|
    ensures var e := T[tb + Low(x, tree.l)];
            && e.bits == CodeBits(tree, x) <= tree.l && 0 < e.bits
            && e.base == LengthSymbol(tree, x) <= 18
  {
    hide Shl, Shr, Low, Rev, MaxLen, OverSubscribed, Incomplete, IsTable, LenAt, SymbolAt, Space, MinLenFrom, Count, Nth;
    FirstLookup(x, 0);
    NoShift(x);
    Lookup(T, tree, tb, tree.l, 0, x);
    var lens, v := tree.lens, Pos(tree.lens, x);
    match SymbolAt(lens, v) {
      case Symbol(s) =>
      case NoSymbol =>
        if !Incomplete(lens) { CompleteDecodes(lens, x); }
        OneMissing(lens);
    }
  }

  lemma NoShift(x: nat)
    ensures Shr(x, 0) == x && Low(x, 0) == 0
  {
  }

  /** An incomplete code of one-bit codes has just one code. */
  lemma OneMissing(lens: Lengths)
    requires ValidLengths(lens) && MaxLen(lens) == 1 && Incomplete(lens)
    ensures LoneCode(lens)
  {
    hide MaxLen, Incomplete, Count;
    KraftAtMax(lens);
    CountAtMax(lens);
    ShlZeroBits(Count(lens, 1));
    assert End(lens, 1, 1) == Count(lens, 1);
    assert Pow2(1) == 2;
  }

  function Total(table: nat): nat {
    LiteralCount(table) + DistanceCount(table)
  }

  /** What the machine does with one code length symbol. */
  lemma DTreeIs(S: nat, W: nat, a: State)
    requires Good(W, a) && a.block.DTree? && a.block.index < Total(a.block.table)
    ensures !Terminal(a) && Good(W, Next(S, W, a)) && |a.blens| == BLENS_SIZE && Total(a.block.table) <= BLENS_SIZE
    ensures GoodBits(a.block.tree)
    ensures var DTree(table, index, tree) := a.block;
            var x := Shr(S, a.pos);
            var k, c := CodeBits(tree, x), LengthSymbol(tree, x);
            var n := k + RepeatBits(c);
            && Need(S, W, a) == (if n > tree.l then n else tree.l)
            && (c < 16 ==> Next(S, W, a) == a.(pos := a.pos + k, blens := a.blens[index := c],
                                               block := DTree(table, index + 1, tree)))
            && (c >= 16 ==>
                  var j := RepeatBase(c) + Peek(S, a.pos + k, RepeatBits(c));
                  Next(S, W, a) == if index + j > Total(table) || (c == 16 && index < 1)
                                   then a.(pos := a.pos + n, block := Bad)
                                   else a.(pos := a.pos + n,
                                           blens := Repeat(a.blens, index, j, if c == 16 then a.blens[index - 1] else 0),
                                           block := DTree(table, index + j, tree)))
  {
    hide Shl, Shr, Low, MaxLen, OverSubscribed, Incomplete, Space, MinLenFrom, Peek, Decodable, LengthSymbol, LenAt, Repeat;
    NextGood(S, W, a);
  }

  /** Get a code length symbol. */
  method ReadLengthSymbol(s: Inflater) returns (ok: bool, e: Huft)
    requires Valid(s) && s.mode.InDTree? && s.mode.index < Total(s.mode.table)
    modifies s`nextIn, s`availIn, s`bitb, s`bitk, s`returned
    ensures Valid(s) && s.Limit() == old(s.Limit())
    ensures GoodBits(s.abs.block.tree)
    ensures ok ==> var x := Shr(s.S(), s.abs.pos);
                   && e.bits == CodeBits(s.abs.block.tree, x) <= s.bitk && 0 < e.bits <= 7
                   && e.base == LengthSymbol(s.abs.block.tree, x) <= 18
                   && s.abs.block.tree.l <= s.bitk
    ensures !ok ==> s.availIn == 0 && Starved(s.S(), s.W, s.Limit(), s.abs)
  {
    hide Shl, Shr, Low, Rev, MaxLen, IsTable, Next, Need, Good, TreesReady, LenAt,
      Buffer, Ring, Delivered, Stream, Starved, Valid, LengthSymbol, Decodable;
    ghost var a := s.abs;
    ValidIs(s);
    DTreeIs(s.S(), s.W, a);
    StepsIntro(s.S(), s.W, s.Limit(), a);
    BitsLookup(s.hufts[..s.hl], a.block.tree, s.mode.tb, Shr(s.S(), a.pos));
    ok := NeedBits(s, s.mode.bb);
    e := Huft(0, 0, 0);
    if ok {
      var v := PeekBits(s, s.mode.bb);
      e := s.hufts[s.mode.tb + v];
    }
    ValidIs(s);
  }

  /** Fill in `j` copies of `c`. */
  method FillLengths(blens: array<nat>, i: nat, j: nat, c: nat)
    requires i + j <= blens.Length
    modifies blens
    ensures blens[..] == Repeat(old(blens[..]), i, j, c)
  {
    var n := 0;
    while n < j
      invariant 0 <= n <= j
      invariant forall d :: 0 <= d < blens.Length ==> blens[d] == if i <= d < i + n then c else old(blens[d])
    {
      blens[i + n] := c;
      n := n + 1;
    }
  }

  /** Get one code length, or a run of them. */
  method CaseLengths(s: Inflater) returns (ok: bool)
    requires Valid(s) && s.mode.InDTree? && s.mode.index < Total(s.mode.table)
    modifies s`nextIn, s`availIn, s`bitb, s`bitk, s`returned, s`mode, s`abs, s.blens
    ensures Valid(s) && s.Limit() == old(s.Limit()) && AtRest(s)
    ensures ok ==> Steps(s.S(), s.W, s.Limit(), old(s.abs), s.abs)
    ensures !ok ==> s.abs == old(s.abs) && s.availIn == 0 && Starved(s.S(), s.W, s.Limit(), s.abs)
  {
    hide Shl, Shr, Low, Rev, MaxLen, IsTable, Next, Need, Good, TreesReady, LenAt, GoodBits,
      Buffer, Ring, Delivered, Stream, Steps, Starved, Valid, LengthSymbol, Decodable, Peek;
    ghost var a := s.abs;
    var e;
    ok, e := ReadLengthSymbol(s);
    if ok {
      if e.base < 16 {
        TakeLength(s, e);
      } else {
        ok := TakeRun(s, e);
      }
    }
  }

  /** A code length by itself. */
  method TakeLength(s: Inflater, e: Huft)
    requires Valid(s) && s.mode.InDTree? && s.mode.index < Total(s.mode.table)
    requires GoodBits(s.abs.block.tree) && s.abs.block.tree.l <= s.bitk
    requires var x := Shr(s.S(), s.abs.pos);
             && e.bits == CodeBits(s.abs.block.tree, x) <= s.bitk && e.bits <= 7
             && e.base == LengthSymbol(s.abs.block.tree, x) < 16
    modifies s`bitb, s`bitk, s`mode, s`abs, s.blens
    ensures Valid(s) && s.Limit() == old(s.Limit()) && AtRest(s)
    ensures Steps(s.S(), s.W, s.Limit(), old(s.abs), s.abs)
  {
    hide Shl, Shr, Low, Rev, MaxLen, IsTable, Next, Need, Good, TreesReady, LenAt, GoodBits,
      Buffer, Ring, Delivered, Stream, Steps, Valid, LengthSymbol, Decodable, Peek;
    ghost var a := s.abs;
    ValidIs(s);
    DTreeIs(s.S(), s.W, a);
    StepsIntro(s.S(), s.W, s.Limit(), a);
    BufferBound(s.S(), s.nextIn, s.bitk, s.bitb, s.returned);
    s.blens[s.mode.index] := e.base;
    DumpBits(s, e.bits);
    s.abs := Next(s.S(), s.W, a);
    s.mode := InDTree(s.mode.table, s.mode.index + 1, s.mode.bb, s.mode.tb);
    ValidIs(s);
  }

  /** A code length repeated: copy the previous length, or zeros. */
  method TakeRun(s: Inflater, e: Huft) returns (ok: bool)
    requires Valid(s) && s.mode.InDTree? && s.mode.index < Total(s.mode.table)
    requires GoodBits(s.abs.block.tree) && s.abs.block.tree.l <= s.bitk
    requires var x := Shr(s.S(), s.abs.pos);
             && e.bits == CodeBits(s.abs.block.tree, x) <= s.bitk && e.bits <= 7
             && e.base == LengthSymbol(s.abs.block.tree, x) && 16 <= e.base <= 18
    modifies s`nextIn, s`availIn, s`bitb, s`bitk, s`returned, s`mode, s`abs, s.blens
    ensures Valid(s) && s.Limit() == old(s.Limit()) && AtRest(s)
    ensures ok ==> Steps(s.S(), s.W, s.Limit(), old(s.abs), s.abs)
    ensures !ok ==> s.abs == old(s.abs) && s.availIn == 0 && Starved(s.S(), s.W, s.Limit(), s.abs)
  {
    hide Shl, Shr, Low, Rev, MaxLen, IsTable, Next, Need, Good, TreesReady, LenAt, GoodBits,
      Buffer, Ring, Delivered, Stream, Steps, Starved, Valid, LengthSymbol, Decodable, Peek, Repeat, RunStored;
    ghost var a := s.abs;
    ValidIs(s);
    RunNeed(s.S(), s.W, a, e);
    StepsIntro(s.S(), s.W, s.Limit(), a);
    var c := e.base;
    var i := if c == 18 then 7 else c - 14;
    ok := NeedBits(s, e.bits + i);
    if ok {
      RunIs(s.S(), s.W, a, e);
      DumpBits(s, e.bits);
      var v := PeekBits(s, i);
      DumpBits(s, i);
      s.abs := Next(s.S(), s.W, a);
      StoreRun(s, c, (if c == 18 then 11 else 3) + v, a);
    } else {
      ValidIs(s);
    }
  }

  /** What a run of `j` lengths `c` at `index` makes of the state. */
  ghost predicate RunStored(b: State, a: State, table: nat, index: nat, tree: Tree, c: nat, j: nat)
    requires |a.blens| == BLENS_SIZE && Total(table) <= BLENS_SIZE && index <= Total(table)
  {
    if index + j > Total(table) || (c == 16 && index < 1) then b.block == Bad && b.blens == a.blens
    else
      && b.block == DTree(table, index + j, tree)
      && b.blens == Repeat(a.blens, index, j, if c == 16 then a.blens[index - 1] else 0)
  }

  lemma RunNeed(S: nat, W: nat, a: State, e: Huft)
    requires Good(W, a) && a.block.DTree? && a.block.index < Total(a.block.table)
    requires GoodBits(a.block.tree)
    requires e.bits == CodeBits(a.block.tree, Shr(S, a.pos))
    requires e.base == LengthSymbol(a.block.tree, Shr(S, a.pos)) && 16 <= e.base <= 18
    ensures !Terminal(a)
    ensures var n := e.bits + (if e.base == 18 then 7 else e.base - 14);
            Need(S, W, a) == if n > a.block.tree.l then n else a.block.tree.l
  {
    hide Shl, Shr, Low, MaxLen, LenAt, GoodBits, Good, Next, Need, LengthSymbol, Peek, Repeat;
    DTreeIs(S, W, a);
  }

  lemma RunIs(S: nat, W: nat, a: State, e: Huft)
    requires Good(W, a) && a.block.DTree? && a.block.index < Total(a.block.table)
    requires GoodBits(a.block.tree)
    requires e.bits == CodeBits(a.block.tree, Shr(S, a.pos))
    requires e.base == LengthSymbol(a.block.tree, Shr(S, a.pos)) && 16 <= e.base <= 18
    ensures Good(W, Next(S, W, a)) && |a.blens| == BLENS_SIZE && Total(a.block.table) <= BLENS_SIZE
    ensures var i := if e.base == 18 then 7 else e.base - 14;
            var j := (if e.base == 18 then 11 else 3) + Peek(S, a.pos + e.bits, i);
            var b := Next(S, W, a);
            && b.pos == a.pos + e.bits + i && b.hist == a.hist && b.last == a.last
            && RunStored(b, a, a.block.table, a.block.index, a.block.tree, e.base, j)
  {
    hide Shl, Shr, Low, MaxLen, LenAt, GoodBits, Good, Next, Need, LengthSymbol, Peek, Repeat;
    DTreeIs(S, W, a);
  }

  /** Enter `j` copies into the code lengths, if they fit. */
  method StoreRun(s: Inflater, c: nat, j: nat, ghost a: State)
    requires s.InputOK() && s.WindowOK() && s.hufts.Length == MANY && s.work.Length >= 288
    requires s.blens.Length == BLENS_SIZE && s.blens != s.work && a.blens == s.blens[..]
    requires Good(s.W, s.abs) && s.last == s.abs.last && s.bitk <= 15 && s.At() == s.abs.pos
    requires s.mode.InDTree? && s.mode.index < Total(s.mode.table) <= BLENS_SIZE && s.hl <= MANY
    requires a.block.DTree? && s.mode.bb == a.block.tree.l
    requires IsTable(s.hufts[..s.hl], a.block.tree, s.mode.tb, s.mode.bb, 0, 0)
    requires RunStored(s.abs, a, s.mode.table, s.mode.index, a.block.tree, c, j)
    modifies s`mode, s.blens
    ensures Valid(s) && AtRest(s)
  {
    hide Shl, Shr, Low, Rev, MaxLen, IsTable, Good, TreesReady, Buffer, Ring, Delivered, Stream, Valid, Repeat;
    var InDTree(table, index, bb, tb) := s.mode;
    if index + j > Total(table) || (c == 16 && index < 1) {
      SetMode(s, InBad);
    } else {
      FillLengths(s.blens, index, j, if c == 16 then s.blens[index - 1] else 0);
      assert s.hufts[..][..s.hl] == s.hufts[..s.hl];
      SetMode(s, InDTree(table, index + j, bb, tb));
    }
  }

  lemma BuildIs(S: nat, W: nat, a: State)
    requires Good(W, a) && a.block.DTree? && a.block.index >= Total(a.block.table)
    ensures !Terminal(a) && Good(W, Next(S, W, a)) && Need(S, W, a) == 0
    ensures |a.blens| == BLENS_SIZE && Total(a.block.table) <= BLENS_SIZE && TableOK(a.block.table)
    ensures var table := a.block.table;
            var lit, dist := a.blens[..LiteralCount(table)], a.blens[LiteralCount(table)..Total(table)];
            && ValidLengths(lit) && ValidLengths(dist)
            && Next(S, W, a) == a.(block := if DynamicUsable(lit, dist) then
                 InCodes(MakeTree(lit, LITERALS, LITERAL_WIDTH),
                         if MaxLen(dist) == 0 then Tree(dist, 0, DISTANCES)
                         else MakeTree(dist, DISTANCES, DISTANCE_WIDTH), Start)
                 else Bad)
  {
    hide Shl, Shr, Low, MaxLen, OverSubscribed, Incomplete, Space, MinLenFrom, Peek, Decodable, LengthSymbol, LenAt, GoodBits, Usable;
    NextGood(S, W, a);
  }

  /** All code lengths are known: build the literal/length and distance tables. */
  method CaseBuild(s: Inflater)
    requires Valid(s) && s.mode.InDTree? && s.mode.index >= Total(s.mode.table)
    modifies s`mode, s`abs, s`hl, s`hd, s.hufts, s.work
    ensures Valid(s) && AtRest(s)
    ensures Steps(s.S(), s.W, s.Limit(), old(s.abs), s.abs)
  {
    hide Shl, Shr, Low, Rev, MaxLen, IsTable, Next, Need, Good, TreesReady, LenAt,
      Buffer, Ring, Delivered, Stream, Steps, Starved, Valid, Decodable, Peek, DynamicUsable, MakeTree, Width;
    ghost var a := s.abs;
    ValidIs(s);
    BuildIs(s.S(), s.W, a);
    StepsIntro(s.S(), s.W, s.Limit(), a);
    BufferBound(s.S(), s.nextIn, s.bitk, s.bitb, s.returned);
    var table := s.mode.table;
    s.abs := Next(s.S(), s.W, a);
    BuildTrees(s, table);
  }

  method BuildTrees(s: Inflater, table: nat)
    requires Sound(s) && s.bitk <= 15 && s.At() == s.abs.pos
    requires TableOK(table) && Total(table) <= BLENS_SIZE
    requires var lit, dist := s.abs.blens[..LiteralCount(table)], s.abs.blens[LiteralCount(table)..Total(table)];
             && ValidLengths(lit) && ValidLengths(dist)
             && s.abs.block == if DynamicUsable(lit, dist) then
                 InCodes(MakeTree(lit, LITERALS, LITERAL_WIDTH),
                         if MaxLen(dist) == 0 then Tree(dist, 0, DISTANCES)
                         else MakeTree(dist, DISTANCES, DISTANCE_WIDTH), Start)
                 else Bad
    modifies s`mode, s`hl, s`hd, s.hufts, s.work
    ensures Valid(s) && AtRest(s)
  {
    hide Shl, Shr, Low, Rev, MaxLen, IsTable, Good, LenAt,
      Buffer, Ring, Delivered, Stream, Valid, Width, Usable;
    var lit := s.blens[..LiteralCount(table)];
    var dist := s.blens[LiteralCount(table)..Total(table)];
    assert lit == s.abs.blens[..LiteralCount(table)] && dist == s.abs.blens[LiteralCount(table)..Total(table)];
    var ok, tl, bl, td, bd;
    ghost var hl, hd;
    ok, tl, bl, td, bd, hl, hd := TreesDynamic(lit, dist, s.hufts, s.work);
    s.hl, s.hd := hl, hd;
    if ok {
      SetMode(s, InHuffman(bl, bd, tl, td, AtStart));
    } else {
      SetMode(s, InBad);
    }
  }
}
