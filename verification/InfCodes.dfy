/** The resumable symbol decoder: every case of its switch is a step of the DEFLATE machine. */
module InfCodes {
  import opened Bits
  import opened Canonical
  import opened HuftTables
  import opened HuftLabels
  import opened HuftBuild
  import opened InflateTrees
  import opened Deflate
  import opened DeflateRun
  import opened InfUtil
  import opened InfState
  import opened InfLookup
  import opened InfFast

  /** The mode says all about the symbol. */
  lemma ModeIsState(s: Inflater)
    requires s.mode.InHuffman?
    ensures InSymbols(s) <==> FastState(s, s.mode.codes) && s.bitk <= 15
  {
    hide Shl, Shr, Low, Rev, MaxLen, IsTable, Good, Buffer, Ring, Delivered, Stream, TreesReady, CodesMatch;
  }

  /** Get the next length or literal or end of block, one table at a time. */
  method CaseLen(s: Inflater) returns (ok: bool)
    requires InSymbols(s) && s.mode.codes.AtLen?
    modifies s`nextIn, s`availIn, s`bitb, s`bitk, s`returned, s`mode, s`abs
    ensures InSymbols(s) && s.Limit() == old(s.Limit()) && !s.mode.codes.AtEnd?
    ensures ok ==> Steps(s.S(), s.W, s.Limit(), old(s.abs), s.abs)
    ensures !ok ==> s.abs == old(s.abs) && s.availIn == 0 && Starved(s.S(), s.W, s.Limit(), s.abs)
  {
    hide Valid, Good, Steps, Starved, Buffer, Ring, Delivered, Stream, TreesReady, CodesMatch;
    ModeIsState(s);
    var AtLen(need, tree) := s.mode.codes;
    LiteralNeed(s, need, tree);
    ok := NeedBits(s, need);
    if ok {
      var m := LookUpLiteral(s, need, tree);
      s.mode := s.mode.(codes := m);
    } else {
      LiteralNeed(s, need, tree);
    }
    ModeIsState(s);
  }

  /** Get the extra bits of a length, and set up for the distance. */
  method CaseLenExt(s: Inflater) returns (ok: bool)
    requires InSymbols(s) && s.mode.codes.AtLenExt?
    modifies s`nextIn, s`availIn, s`bitb, s`bitk, s`returned, s`mode, s`abs
    ensures InSymbols(s) && s.Limit() == old(s.Limit()) && !s.mode.codes.AtEnd?
    ensures ok ==> Steps(s.S(), s.W, s.Limit(), old(s.abs), s.abs)
    ensures !ok ==> s.abs == old(s.abs) && s.availIn == 0 && Starved(s.S(), s.W, s.Limit(), s.abs)
  {
    hide Valid, Good, Steps, Starved, Buffer, Ring, Delivered, Stream, TreesReady, CodesMatch;
    ModeIsState(s);
    ExtraNeed(s, s.mode.codes);
    var AtLenExt(len, get) := s.mode.codes;
    ok := NeedBits(s, get);
    if ok {
      var c := TakeLengthBits(s, len, get);
      s.mode := s.mode.(codes := AtDist(c, s.mode.dbits, s.mode.dtree));
    } else {
      ExtraNeed(s, s.mode.codes);
    }
    ModeIsState(s);
  }

  /** Get the next distance, one table at a time. */
  method CaseDist(s: Inflater) returns (ok: bool)
    requires InSymbols(s) && s.mode.codes.AtDist?
    modifies s`nextIn, s`availIn, s`bitb, s`bitk, s`returned, s`mode, s`abs
    ensures InSymbols(s) && s.Limit() == old(s.Limit()) && !s.mode.codes.AtEnd?
    ensures ok ==> Steps(s.S(), s.W, s.Limit(), old(s.abs), s.abs)
    ensures !ok ==> s.abs == old(s.abs) && s.availIn == 0 && Starved(s.S(), s.W, s.Limit(), s.abs)
  {
    hide Valid, Good, Steps, Starved, Buffer, Ring, Delivered, Stream, TreesReady, CodesMatch;
    ModeIsState(s);
    var AtDist(len, need, tree) := s.mode.codes;
    DistanceNeed(s, len, need, tree);
    ok := NeedBits(s, need);
    if ok {
      var m := LookUpDistance(s, len, need, tree);
      s.mode := s.mode.(codes := m);
    } else {
      DistanceNeed(s, len, need, tree);
    }
    ModeIsState(s);
  }

  /** Get the extra bits of a distance. */
  method CaseDistExt(s: Inflater) returns (ok: bool)
    requires InSymbols(s) && s.mode.codes.AtDistExt?
    modifies s`nextIn, s`availIn, s`bitb, s`bitk, s`returned, s`mode, s`abs
    ensures InSymbols(s) && s.Limit() == old(s.Limit()) && !s.mode.codes.AtEnd?
    ensures ok ==> Steps(s.S(), s.W, s.Limit(), old(s.abs), s.abs)
    ensures !ok ==> s.abs == old(s.abs) && s.availIn == 0 && Starved(s.S(), s.W, s.Limit(), s.abs)
  {
    hide Valid, Good, Steps, Starved, Buffer, Ring, Delivered, Stream, TreesReady, CodesMatch;
    ModeIsState(s);
    ExtraNeed(s, s.mode.codes);
    var AtDistExt(len, dist, get) := s.mode.codes;
    ok := NeedBits(s, get);
    if ok {
      var d := TakeDistanceBits(s, len, dist, get);
      s.mode := s.mode.(codes := AtCopy(len, d));
    } else {
      ExtraNeed(s, s.mode.codes);
    }
    ModeIsState(s);
  }

  /** Set up for a symbol. */
  method CaseStart(s: Inflater)
    requires InSymbols(s) && s.mode.codes.AtStart?
    modifies s`mode, s`abs
    ensures InSymbols(s) && Steps(s.S(), s.W, s.Limit(), old(s.abs), s.abs)
    ensures s.mode.codes.AtLen?
  {
    hide Shl, Shr, Low, Rev, MaxLen, LenAt, IsTable, Next, Need, NextSymbol, GoodCodes, Good, CodesLookahead, Buffer, Ring, Delivered, Peek, Stream, TreesReady;
    ghost var a := s.abs;
    BufferBound(s.S(), s.nextIn, s.bitk, s.bitb, s.returned);
    SilentStep(s.S(), s.W, a);
    StepsIntro(s.S(), s.W, s.Limit(), a);
    StartMatches(s.hufts[..], s.hl, s.hd, s.S(), a.pos, a.block.lit, a.block.dist, s.mode.ltree, s.mode.dtree);
    s.mode := s.mode.(codes := AtLen(s.mode.lbits, s.mode.ltree));
    s.abs := Next(s.S(), s.W, a);
  }

  /** Put a literal into the window. */
  method CaseLit(s: Inflater) returns (ok: bool)
    requires InSymbols(s) && s.mode.codes.AtLit?
    modifies s`read, s`write, s`availOut, s`delivered, s`mode, s`abs, s.window
    ensures InSymbols(s) && !s.mode.codes.AtEnd?
    ensures OutputMoves(old(s.availOut), old(s.delivered), s.availOut, s.delivered)
    ensures ok ==> Steps(s.S(), s.W, s.Limit(), old(s.abs), s.abs)
    ensures !ok ==> s.abs == old(s.abs) && s.availOut == 0 && Stuffed(s.W, Pending(s.W, s.read, s.write), s.abs)
  {
    hide Shl, Shr, Low, Rev, MaxLen, LenAt, IsTable, Next, Need, NextSymbol, GoodCodes, Good, CodesLookahead, Buffer, Ring, Delivered, Peek, Stream, TreesReady;
    ghost var a := s.abs;
    BufferBound(s.S(), s.nextIn, s.bitk, s.bitb, s.returned);
    LitStep(s.S(), s.W, s.Limit(), a);
    ok := NeedOut(s);
    if ok {
      OutByte(s, s.mode.codes.lit, Next(s.S(), s.W, a));
      s.mode := s.mode.(codes := AtStart);
    }
  }

  /** Bytes only ever move from the output space to what was delivered. */
  predicate OutputMoves(room: nat, delivered: seq<byte>, room': nat, delivered': seq<byte>) {
    delivered <= delivered' && room' + |delivered'| == room + |delivered|
  }

  /** Copy a string in the window, as far as there is room. */
  method CaseCopy(s: Inflater) returns (ok: bool)
    requires InSymbols(s) && s.mode.codes.AtCopy?
    modifies s`read, s`write, s`availOut, s`delivered, s`mode, s`abs, s.window
    ensures InSymbols(s) && !s.mode.codes.AtEnd?
    ensures OutputMoves(old(s.availOut), old(s.delivered), s.availOut, s.delivered)
    ensures Good(s.W, old(s.abs)) && Reaches(s.S(), s.W, s.Limit(), old(s.abs), s.abs)
    ensures ok ==> s.mode.codes.AtStart? && s.abs.block.InCodes? && s.abs.block.codes.Start?
    ensures !ok ==> s.read < s.W && s.write <= s.W && s.availOut == 0 && Stuffed(s.W, Pending(s.W, s.read, s.write), s.abs)
    ensures s.abs.pos == old(s.abs.pos)
  {
    hide Shl, Shr, Low, Rev, MaxLen, LenAt, IsTable, Next, Need, NextSymbol, GoodCodes, Good, CodesLookahead, Buffer, Ring, Delivered, Peek, Stream, TreesReady, Reaches, Steps, BackDistance, Valid, CodesMatch;
    ModeIsState(s);
    ghost var a := s.abs;
    ghost var limit := s.Limit();
    CopyIsState(s);
    DistPositive(s.W, a);
    ReachesRefl(s.S(), s.W, limit, a);
    var dist := s.mode.codes.dist;
    var f := CopyFrom(s.W, s.write, dist);
    while s.mode.codes.len > 0
      invariant s.mode.InHuffman? && FastState(s, s.mode.codes)
      invariant s.mode.codes.AtCopy? && s.mode.codes.dist == dist && s.abs.pos == a.pos
      invariant BackIndex(s.W, s.write, BackDistance(s.W, dist), f)
      invariant OutputMoves(old(s.availOut), old(s.delivered), s.availOut, s.delivered)
      invariant Reaches(s.S(), s.W, limit, a, s.abs)
      decreases s.mode.codes.len
    {
      ok := NeedOut(s);
      if !ok {
        ModeIsState(s);
        return;
      }
      ghost var b := s.abs;
      f := CopyByte(s, f, s.mode.codes.len, dist);
      s.mode := s.mode.(codes := AtCopy(s.mode.codes.len - 1, dist));
      ReachesStep(s.S(), s.W, limit, a, b, s.abs);
    }
    ghost var b := s.abs;
    EndCopy(s);
    ReachesStep(s.S(), s.W, limit, a, b, s.abs);
    ModeIsState(s);
    ok := true;
  }

  lemma CopyIsState(s: Inflater)
    requires s.mode.InHuffman? && s.mode.codes.AtCopy? && FastState(s, s.mode.codes)
    ensures s.abs.block.codes == Copy(s.mode.codes.len, s.mode.codes.dist)
  {
    hide Shl, Shr, Low, Rev, MaxLen, LenAt, IsTable, Next, Need, NextSymbol, GoodCodes, Good, CodesLookahead, Buffer, Ring, Delivered, Peek, Stream, TreesReady, Reaches, Steps, BackDistance;
  }

  /** The string is complete. */
  method EndCopy(s: Inflater)
    requires s.mode.InHuffman? && s.mode.codes.AtCopy? && s.mode.codes.len == 0 && FastState(s, s.mode.codes)
    modifies s`mode, s`abs
    ensures s.mode.InHuffman? && s.mode.codes.AtStart? && FastState(s, s.mode.codes)
    ensures Steps(s.S(), s.W, s.Limit(), old(s.abs), s.abs) && s.abs.pos == old(s.abs.pos)
    ensures s.abs.block.codes.Start?
  {
    hide Shl, Shr, Low, Rev, MaxLen, LenAt, IsTable, Next, Need, NextSymbol, GoodCodes, Good, CodesLookahead, Buffer, Ring, Delivered, Peek, Stream, TreesReady, Reaches, Steps, BackDistance;
    BufferBound(s.S(), s.nextIn, s.bitk, s.bitb, s.returned);
    CopyEnd(s.S(), s.W, s.Limit(), s.abs);
    s.abs := Next(s.S(), s.W, s.abs);
    s.mode := s.mode.(codes := AtStart);
  }

  /** After the end of a block: return an unused byte, and wait until all output is delivered. */
  method CaseWash(s: Inflater) returns (ok: bool)
    requires InSymbols(s) && s.mode.codes.AtWash?
    modifies s`nextIn, s`availIn, s`bitk, s`returned, s`read, s`write, s`availOut, s`delivered, s`mode
    ensures InSymbols(s) && s.Limit() == old(s.Limit()) && s.abs == old(s.abs) && s.bitk < 8
    ensures OutputMoves(old(s.availOut), old(s.delivered), s.availOut, s.delivered)
    ensures ok ==> s.mode.codes.AtEnd? && Pending(s.W, s.read, s.write) == 0
    ensures !ok ==> s.mode == old(s.mode) && s.availOut == 0 && Stuffed(s.W, Pending(s.W, s.read, s.write), s.abs)
  {
    hide Shl, Shr, Low, Rev, MaxLen, LenAt, IsTable, Next, Need, NextSymbol, GoodCodes, Good, CodesLookahead, Buffer, Ring, Delivered, Peek, Stream, TreesReady;
    BufferBound(s.S(), s.nextIn, s.bitk, s.bitb, s.returned);
    if s.bitk > 7 {
      ReturnBytes(s, 1);
    }
    Flush(s);
    ok := s.read == s.write;
    if ok {
      s.mode := s.mode.(codes := AtEnd);
    }
  }

  // ----- The loop

  lemma StepProgress(S: nat, W: nat, limit: nat, a: State, b: State)
    requires Steps(S, W, limit, a, b)
    ensures a.pos < b.pos || (a.pos == b.pos && (Phase(b) < Phase(a)
                                                 || (Phase(b) == Phase(a) && Remainder(b) < Remainder(a))))
  {
    hide Good, Next, Need, Phase, Remainder;
    NextProgress(S, W, a);
  }

  /** The stream position lies within the input, and the modes agree. */
  lemma SymbolsBound(s: Inflater)
    requires InSymbols(s)
    ensures Good(s.W, s.abs) && s.abs.pos <= 8 * s.Limit()
    ensures s.abs.block.InCodes?
    ensures s.mode.codes.AtStart? ==> s.abs.block.codes.Start?
    ensures s.mode.codes.AtCopy? ==> s.abs.block.codes.Copy?
    ensures s.mode.codes.AtWash? ==> s.abs.block.codes.Wash?
    ensures s.mode.codes.AtBadCode? ==> s.abs.block.codes.BadCode?
  {
    hide Shl, Shr, Low, Rev, MaxLen, IsTable, Good, Ring, Delivered, Stream, TreesReady;
  }

  /** Output is delivered as far as there is room. */
  ghost predicate Drained(s: Inflater)
    reads s
  {
    s.read < s.W && s.write <= s.W && (s.availOut == 0 || Pending(s.W, s.read, s.write) == 0)
  }

  /** Why the decoder waits: for output space, or for input. */
  ghost predicate Waits(s: Inflater)
    reads s
  {
    && s.read < s.W && s.write <= s.W
    && ((s.availOut == 0 && Stuffed(s.W, Pending(s.W, s.read, s.write), s.abs))
        || (s.availIn == 0 && Starved(s.S(), s.W, s.Limit(), s.abs)))
  }

  /** Flushing changes nothing the machine can see. */
  method FlushSymbols(s: Inflater)
    requires InSymbols(s)
    modifies s`read, s`write, s`availOut, s`delivered
    ensures InSymbols(s) && Drained(s)
    ensures OutputMoves(old(s.availOut), old(s.delivered), s.availOut, s.delivered)
    ensures Pending(s.W, s.read, s.write) <= Pending(s.W, old(s.read), old(s.write))
    ensures old(s.availOut) == 0 ==> s.availOut == 0 && Pending(s.W, s.read, s.write) == Pending(s.W, old(s.read), old(s.write))
  {
    hide Shl, Shr, Low, Rev, MaxLen, IsTable, Good, Buffer, Ring, Delivered, Stream, TreesReady, CodesMatch;
    Flush(s);
  }

  /** Try the fast path at the start of a symbol. */
  method TryFast(s: Inflater)
    requires InSymbols(s) && s.mode.codes.AtStart?
    modifies s`nextIn, s`availIn, s`bitb, s`bitk, s`returned, s`abs, s`write, s`mode, s.window
    ensures InSymbols(s) && s.Limit() == old(s.Limit())
    ensures s.mode.codes.AtStart? || s.mode.codes.AtWash? || s.mode.codes.AtBadCode?
    ensures Good(s.W, old(s.abs)) && Reaches(s.S(), s.W, s.Limit(), old(s.abs), s.abs)
    ensures (s.mode.codes.AtStart? && s.abs == old(s.abs)) || s.abs.pos > old(s.abs.pos)
  {
    hide Shl, Shr, Low, Rev, MaxLen, LenAt, IsTable, Next, Need, NextSymbol, GoodCodes, Good, CodesLookahead, Buffer, Ring, Delivered, Peek, Stream, TreesReady, Reaches, Steps, Starved, BackDistance, Valid, CodesMatch;
    ModeIsState(s);
    SymbolsBound(s);
    ReachesRefl(s.S(), s.W, s.Limit(), s.abs);
    if Wavail(s) >= 258 && s.availIn >= 10 {
      var r := InflateFast(s);
      s.mode := s.mode.(codes := AfterFast(r));
      ModeIsState(s);
    }
  }

  /** Symbols up to the end of the block, or to where input or room is short. */
  method InflateCodes(s: Inflater) returns (r: Status)
    requires InSymbols(s) && !s.mode.codes.AtEnd?
    modifies s`nextIn, s`availIn, s`bitb, s`bitk, s`returned, s`abs, s`read, s`write, s`availOut, s`delivered,
             s`mode, s.window
    ensures InSymbols(s) && s.Limit() == old(s.Limit()) && Drained(s)
    ensures Good(s.W, old(s.abs)) && Reaches(s.S(), s.W, s.Limit(), old(s.abs), s.abs)
    ensures OutputMoves(old(s.availOut), old(s.delivered), s.availOut, s.delivered)
    ensures r == Waiting ==> !s.mode.codes.AtEnd?
                             && Waits(s)
    ensures r == StreamEnd ==> s.mode.codes.AtEnd? && s.bitk < 8 && Pending(s.W, s.read, s.write) == 0
    ensures r == Corrupt ==> s.mode.codes.AtBadCode?
  {
    hide Shl, Shr, Low, Rev, MaxLen, LenAt, IsTable, Next, Need, NextSymbol, GoodCodes, Good, CodesLookahead, Buffer, Ring, Delivered, Peek, Stream, TreesReady, Reaches, Steps, Starved, BackDistance, Valid, CodesMatch, Phase, Remainder;
    ghost var a := s.abs;
    ghost var limit := s.Limit();
    SymbolsBound(s);
    ReachesRefl(s.S(), s.W, limit, a);
    while true
      invariant InSymbols(s) && s.Limit() == limit && !s.mode.codes.AtEnd?
      invariant s.abs.pos <= 8 * limit
      invariant Good(s.W, a) && Reaches(s.S(), s.W, limit, a, s.abs)
      invariant OutputMoves(old(s.availOut), old(s.delivered), s.availOut, s.delivered)
      decreases 8 * limit - s.abs.pos, Phase(s.abs), Remainder(s.abs)
    {
      ghost var b := s.abs;
      SymbolsBound(s);
      var ok := true;
      match s.mode.codes {
        case AtStart =>
          TryFast(s);
          ReachesTrans(s.S(), s.W, limit, a, b, s.abs);
          if s.mode.codes.AtStart? {
            SymbolsBound(s);
            ghost var b' := s.abs;
            CaseStart(s);
            ReachesStep(s.S(), s.W, limit, a, b', s.abs);
            StepProgress(s.S(), s.W, limit, b', s.abs);
          }
        case AtLen(_, _) => ok := CaseLen(s);
        case AtLenExt(_, _) => ok := CaseLenExt(s);
        case AtDist(_, _, _) => ok := CaseDist(s);
        case AtDistExt(_, _, _) => ok := CaseDistExt(s);
        case AtCopy(_, _) =>
          ok := CaseCopy(s);
          ReachesTrans(s.S(), s.W, limit, a, b, s.abs);
          if ok { CopyProgress(b, s.abs); }
        case AtLit(_) => ok := CaseLit(s);
        case AtWash =>
          ok := CaseWash(s);
          FlushSymbols(s);
          return if ok then StreamEnd else Waiting;
        case AtBadCode =>
          FlushSymbols(s);
          return Corrupt;
      }
      if !ok {
        FlushSymbols(s);
        return Waiting;
      }
      SymbolsBound(s);
      if Steps(s.S(), s.W, limit, b, s.abs) {
        ReachesStep(s.S(), s.W, limit, a, b, s.abs);
        StepProgress(s.S(), s.W, limit, b, s.abs);
      }
    }
  }

  lemma CopyProgress(a: State, b: State)
    requires a.block.InCodes? && a.block.codes.Copy? && b.block.InCodes? && b.block.codes.Start?
    ensures Phase(b) < Phase(a)
  {
  }
}
