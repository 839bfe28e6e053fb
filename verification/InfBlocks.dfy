/** The loop of the block decoder. */
module InfBlocks {
  import opened Bits
  import opened Canonical
  import opened HuftTables
  import opened HuftBuild
  import opened InflateTrees
  import opened Deflate
  import opened DeflateRun
  import opened InfUtil
  import opened InfState
  import opened InfLookup
  import opened InfFast
  import opened InfCodes
  import opened InfBlock

  /** `b` comes after `a` in any run through both. */
  predicate Later(a: State, b: State) {
    a.pos < b.pos || (a.pos == b.pos && (Phase(b) < Phase(a)
                                         || (Phase(b) == Phase(a) && Remainder(b) < Remainder(a))))
  }

  lemma {:induction false} RunLater(S: nat, W: nat, limit: nat, a: State, n: nat)
    requires Good(W, a)
    ensures var b := Run(S, W, limit, a, n); b == a || Later(a, b)
    decreases n
  {
    hide Good, Next, Need, Phase, Remainder;
    if n > 0 && Enabled(S, W, limit, a) {
      NextGood(S, W, a);
      NextProgress(S, W, a);
      RunLater(S, W, limit, Next(S, W, a), n - 1);
    }
  }

  lemma ReachesLater(S: nat, W: nat, limit: nat, a: State, b: State)
    requires Good(W, a) && Reaches(S, W, limit, a, b)
    ensures b == a || Later(a, b)
  {
    hide Good, Next, Enabled, Phase, Remainder, Later;
    var n: nat :| Run(S, W, limit, a, n) == b;
    RunLater(S, W, limit, a, n);
  }

  lemma WashIs(S: nat, W: nat, limit: nat, a: State)
    requires Good(W, a) && a.block.InCodes? && a.block.codes.Wash? && a.pos <= 8 * limit
    ensures Steps(S, W, limit, a, a.(block := AfterBlock(a.last)))
    ensures Good(W, a.(block := AfterBlock(a.last)))
  {
    hide Shl, Shr, Low, Rev, MaxLen, GoodCodes;
    NextGood(S, W, a);
  }

  lemma DryIs(S: nat, W: nat, limit: nat, a: State)
    requires Good(W, a) && a.block.Dry? && a.pos <= 8 * limit
    ensures Steps(S, W, limit, a, a.(block := Done)) && Good(W, a.(block := Done))
  {
    hide Shl, Shr, Low, Rev, MaxLen;
  }

  /** What a mode says about the machine's state. */
  lemma BlocksBound(s: Inflater)
    requires Valid(s)
    ensures Good(s.W, s.abs) && s.read < s.W && s.write <= s.W
    ensures !s.mode.InBad? ==> s.abs.pos <= 8 * s.Limit() + 15
    ensures s.mode.InDry? || s.mode.InDone? ==> s.bitk < 8
    ensures s.mode.InDry? ==> s.abs.block.Dry? && s.abs.pos == s.At() && s.abs.pos <= 8 * s.Limit()
    ensures s.mode.InDone? ==> s.abs.block.Done? && s.abs.pos == s.At()
    ensures s.mode.InBad? ==> s.abs.block.Bad?
    ensures s.mode.InHuffman? && s.mode.codes.AtBadCode? ==> s.abs.block.InCodes? && s.abs.block.codes.BadCode?
  {
    hide Shl, Shr, Low, Rev, MaxLen, IsTable, Good, Ring, Delivered, Stream, TreesReady;
  }

  /** All symbols of the block are decoded and delivered. */
  method EndCodes(s: Inflater)
    requires Valid(s) && s.mode.InHuffman? && s.mode.codes.AtEnd? && s.bitk < 8
    modifies s`mode, s`abs
    ensures Valid(s) && AtRest(s)
    ensures Steps(s.S(), s.W, s.Limit(), old(s.abs), s.abs)
  {
    hide Shl, Shr, Low, Rev, MaxLen, IsTable, Next, Need, Good, TreesReady,
      Buffer, Ring, Delivered, Peek, Stream, Steps, Starved, Valid;
    ValidIs(s);
    BufferBound(s.S(), s.nextIn, s.bitk, s.bitb, s.returned);
    WashIs(s.S(), s.W, s.Limit(), s.abs);
    s.abs := s.abs.(block := AfterBlock(s.abs.last));
    SetMode(s, AfterMode(s.last));
  }

  /** Decode symbols; at the end of the block go on to the next. */
  method CaseCodes(s: Inflater) returns (r: Status)
    requires Valid(s) && s.mode.InHuffman? && AtRest(s)
    modifies s`nextIn, s`availIn, s`bitb, s`bitk, s`returned, s`abs, s`read, s`write, s`availOut, s`delivered,
             s`mode, s.window
    ensures Valid(s) && s.Limit() == old(s.Limit()) && AtRest(s)
    ensures Good(s.W, old(s.abs)) && Reaches(s.S(), s.W, s.Limit(), old(s.abs), s.abs)
    ensures OutputMoves(old(s.availOut), old(s.delivered), s.availOut, s.delivered)
    ensures r == Waiting ==> Waits(s)
    ensures r != StreamEnd ==> Drained(s)
    ensures r == StreamEnd ==> Later(old(s.abs), s.abs)
    ensures r == Corrupt ==> s.mode.InHuffman? && s.mode.codes.AtBadCode?
  {
    hide Shl, Shr, Low, Rev, MaxLen, IsTable, Next, Need, Good, TreesReady,
      Buffer, Ring, Delivered, Peek, Stream, Steps, Starved, Valid, Reaches, CodesMatch, Phase, Remainder;
    ghost var a := s.abs;
    r := InflateCodes(s);
    if r == StreamEnd {
      ghost var b := s.abs;
      EndCodes(s);
      ReachesStep(s.S(), s.W, s.Limit(), a, b, s.abs);
      ReachesLater(s.S(), s.W, s.Limit(), a, b);
      StepProgress(s.S(), s.W, s.Limit(), b, s.abs);
    }
  }

  /** Deliver the rest of the output. */
  method CaseDry(s: Inflater) returns (ok: bool)
    requires Valid(s) && s.mode.InDry?
    modifies s`read, s`write, s`availOut, s`delivered, s`mode, s`abs
    ensures Valid(s) && s.Limit() == old(s.Limit()) && AtRest(s)
    ensures OutputMoves(old(s.availOut), old(s.delivered), s.availOut, s.delivered)
    ensures ok ==> s.mode.InDone? && Steps(s.S(), s.W, s.Limit(), old(s.abs), s.abs)
    ensures !ok ==> s.abs == old(s.abs) && Waits(s)
  {
    hide Shl, Shr, Low, Rev, MaxLen, IsTable, Next, Need, Good, TreesReady,
      Buffer, Ring, Delivered, Peek, Stream, Steps, Starved, Valid;
    BlocksBound(s);
    FlushValid(s);
    ok := s.read == s.write;
    if ok {
      DryIs(s.S(), s.W, s.Limit(), s.abs);
      ValidIs(s);
      s.abs := s.abs.(block := Done);
      SetMode(s, InDone);
    }
  }

  /** What holds when the block decoder leaves. */
  ghost predicate Left(s: Inflater, r: Status)
    reads s, s.window, s.hufts, s.blens
    requires Valid(s)
  {
    && AtRest(s) && Drained(s)
    && match r
       case Waiting => Waits(s)
       case StreamEnd => s.mode.InDone? && s.abs.block.Done? && s.read == s.write && s.bitk < 8
       case Corrupt => Terminal(s.abs) && !s.abs.block.Done?
  }

  /** Take the block decoder's next step. */
  method BlockStep(s: Inflater) returns (ok: bool)
    requires Valid(s) && !s.mode.InHuffman? && !s.mode.InDone? && !s.mode.InBad? && !s.mode.InDry?
    modifies s`nextIn, s`availIn, s`availOut, s`bitb, s`bitk, s`returned, s`abs, s`read, s`write, s`delivered,
             s`last, s`mode, s`hl, s`hd, s.window, s.hufts, s.work, s.blens
    ensures Valid(s) && s.Limit() == old(s.Limit()) && AtRest(s)
    ensures Good(s.W, old(s.abs)) && Reaches(s.S(), s.W, s.Limit(), old(s.abs), s.abs)
    ensures OutputMoves(old(s.availOut), old(s.delivered), s.availOut, s.delivered)
    ensures ok ==> Later(old(s.abs), s.abs)
    ensures !ok ==> Waits(s)
  {
    hide Shl, Shr, Low, Rev, MaxLen, IsTable, Next, Need, Good, TreesReady,
      Buffer, Ring, Delivered, Peek, Stream, Steps, Starved, Valid, Reaches, CodesMatch, Phase, Remainder, ModeMatch;
    ghost var a := s.abs;
    BlocksBound(s);
    ReachesRefl(s.S(), s.W, s.Limit(), a);
    match s.mode {
      case InType => ok := CaseType(s);
      case InLens => ok := CaseLens(s);
      case InTable => ok := CaseTable(s);
      case InBTree(_, _) => ok := CaseBTree(s);
      case InDTree(table, index, _, _) =>
        if index < Total(table) {
          ok := CaseLengths(s);
        } else {
          CaseBuild(s);
          ok := true;
        }
      case InStored(_) =>
        ok := CaseStored(s);
        return;
    }
    if ok {
      StepProgress(s.S(), s.W, s.Limit(), a, s.abs);
      ReachesStep(s.S(), s.W, s.Limit(), a, a, s.abs);
    }
  }

  /** Process blocks. */
  method InflateBlocks(s: Inflater) returns (r: Status)
    requires Valid(s) && AtRest(s)
    modifies s`nextIn, s`availIn, s`availOut, s`bitb, s`bitk, s`returned, s`abs, s`read, s`write, s`delivered,
             s`last, s`mode, s`hl, s`hd, s.window, s.hufts, s.work, s.blens
    ensures Valid(s) && s.Limit() == old(s.Limit()) && Left(s, r)
    ensures Good(s.W, old(s.abs)) && Reaches(s.S(), s.W, s.Limit(), old(s.abs), s.abs)
    ensures OutputMoves(old(s.availOut), old(s.delivered), s.availOut, s.delivered)
  {
    hide Shl, Shr, Low, Rev, MaxLen, IsTable, Next, Need, Good, TreesReady,
      Buffer, Ring, Delivered, Peek, Stream, Steps, Starved, Valid, Reaches, CodesMatch, Phase, Remainder, ModeMatch;
    ghost var a := s.abs;
    ghost var limit := s.Limit();
    BlocksBound(s);
    ReachesRefl(s.S(), s.W, limit, a);
    while true
      invariant Valid(s) && s.Limit() == limit && AtRest(s)
      invariant Good(s.W, a) && Reaches(s.S(), s.W, limit, a, s.abs)
      invariant OutputMoves(old(s.availOut), old(s.delivered), s.availOut, s.delivered)
      decreases 8 * limit + 15 - s.abs.pos, Phase(s.abs), Remainder(s.abs)
    {
      ghost var b := s.abs;
      BlocksBound(s);
      var left;
      left, r := InMode(s);
      ReachesTrans(s.S(), s.W, limit, a, b, s.abs);
      if left {
        return;
      }
      BlocksBound(s);
    }
  }

  /** Go on in the current mode; `left` says whether decoding stops, and then everything is flushed. */
  method InMode(s: Inflater) returns (left: bool, r: Status)
    requires Valid(s) && AtRest(s)
    modifies s`nextIn, s`availIn, s`availOut, s`bitb, s`bitk, s`returned, s`abs, s`read, s`write, s`delivered,
             s`last, s`mode, s`hl, s`hd, s.window, s.hufts, s.work, s.blens
    ensures Valid(s) && s.Limit() == old(s.Limit()) && AtRest(s)
    ensures Good(s.W, old(s.abs)) && Reaches(s.S(), s.W, s.Limit(), old(s.abs), s.abs)
    ensures OutputMoves(old(s.availOut), old(s.delivered), s.availOut, s.delivered)
    ensures if left then Left(s, r) else Later(old(s.abs), s.abs) && !old(s.mode).InBad?
  {
    hide Shl, Shr, Low, Rev, MaxLen, IsTable, Next, Need, Good, TreesReady,
      Buffer, Ring, Delivered, Peek, Stream, Steps, Starved, Valid, Reaches, CodesMatch, Phase, Remainder, ModeMatch, Stuffed;
    ghost var b := s.abs;
    BlocksBound(s);
    ReachesRefl(s.S(), s.W, s.Limit(), b);
    r := Waiting;
    var ok := true;
    match s.mode {
      case InHuffman(_, _, _, _, _) =>
        r := CaseCodes(s);
        BlocksBound(s);
        return r != StreamEnd, r;
      case InDry =>
        ok := CaseDry(s);
        if ok {
          StepProgress(s.S(), s.W, s.Limit(), b, s.abs);
          ReachesStep(s.S(), s.W, s.Limit(), b, b, s.abs);
        }
      case InDone =>
        FlushValid(s);
        return true, StreamEnd;
      case InBad =>
        FlushValid(s);
        return true, Corrupt;
      case _ =>
        ok := BlockStep(s);
    }
    if !ok {
      FlushValid(s);
    }
    left := !ok;
  }
}
