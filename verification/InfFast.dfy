/** The fast path: whole symbols with no checks for input or output space. */
module InfFast {
  import opened Bits
  import opened Canonical
  import opened HuftTables
  import opened HuftLabels
  import opened HuftBuild
  import opened InflateTrees
  import opened Deflate
  import opened DeflateRun
  import opened InfUtil
  import opened InfState
  import opened InfLookup

  /** Load bytes until the buffer has `j` bits; there is enough input. */
  method GrabBits(s: Inflater, j: nat)
    requires s.InputOK() && j <= 25 && s.bitk + 8 * s.availIn >= j
    modifies s`nextIn, s`availIn, s`bitb, s`bitk, s`returned
    ensures s.InputOK() && s.Limit() == old(s.Limit()) && s.At() == old(s.At())
    ensures s.bitk >= j && s.bitk >= old(s.bitk)
    ensures 8 * s.availIn >= 8 * old(s.availIn) - (j + 7) && s.availIn <= old(s.availIn)
  {
    hide Buffer, Shl, Low, Shr, BitOr, Stream;
    while s.bitk < j
      invariant s.InputOK() && s.Limit() == old(s.Limit()) && s.At() == old(s.At())
      invariant s.bitk >= old(s.bitk)
      invariant s.bitk == old(s.bitk) || s.bitk < j + 8
      invariant s.bitk + 8 * s.availIn == old(s.bitk + 8 * s.availIn) && s.availIn <= old(s.availIn)
      decreases s.availIn
    {
      StreamByte(s.input, s.nextIn);
      BufferLoad(s.S(), s.nextIn, s.bitk, s.bitb, s.returned, s.input[s.nextIn]);
      s.bitb := BitOr(s.bitb, Shl(s.input[s.nextIn], s.bitk));
      s.availIn, s.nextIn := s.availIn - 1, s.nextIn + 1;
      s.bitk := s.bitk + 8;
      s.returned := if s.returned > 0 then s.returned - 1 else 0;
    }
  }

  lemma ReachesStep(S: nat, W: nat, limit: nat, a: State, b: State, c: State)
    requires Good(W, a) && Reaches(S, W, limit, a, b) && Steps(S, W, limit, b, c)
    ensures Reaches(S, W, limit, a, c)
  {
    hide Good, Next, Enabled, Reaches;
    ReachesNext(S, W, limit, a, b);
  }

  lemma WBound(W: nat, a: State)
    requires Good(W, a) && a.block.InCodes? && (a.block.codes.Len? || a.block.codes.Dist?)
    ensures a.block.codes.w < MAX_BITS
  {
    hide Shallow;
  }

  /** Get a literal, a length or the end of the block: 20 bits are enough for a length with its
    * extra bits. */
  method FastLiteral(s: Inflater) returns (m: CodesMode)
    requires FastState(s, AtStart) && s.bitk + 8 * s.availIn >= 20
    modifies s`nextIn, s`availIn, s`bitb, s`bitk, s`returned, s`abs
    ensures FastState(s, m) && s.Limit() == old(s.Limit())
    ensures Good(s.W, old(s.abs)) && Reaches(s.S(), s.W, s.Limit(), old(s.abs), s.abs)
    ensures m.AtLit? || m.AtLenExt? || m.AtWash? || m.AtBadCode?
    ensures m.AtLenExt? ==> m.get <= 5 <= s.bitk && 3 <= m.len && m.len + Pow2(m.get) <= 259
    ensures s.At() > old(s.At()) && 8 * s.availIn >= 8 * old(s.availIn) - 27 && s.availIn <= old(s.availIn)
  {
    hide Shl, Shr, Low, Rev, MaxLen, LenAt, IsTable, Next, Need, NextSymbol, GoodCodes, Good,
      CodesLookahead, Buffer, Ring, Delivered, Peek, Stream, Reaches, TreesReady, Steps;
    ghost var a := s.abs;
    ghost var limit := s.Limit();
    BufferBound(s.S(), s.nextIn, s.bitk, s.bitb, s.returned);
    SilentStep(s.S(), s.W, a);
    StepsIntro(s.S(), s.W, limit, a);
    StartMatches(s.hufts[..], s.hl, s.hd, s.S(), a.pos, a.block.lit, a.block.dist, s.mode.ltree, s.mode.dtree);
    ReachesRefl(s.S(), s.W, limit, a);
    s.abs := Next(s.S(), s.W, a);
    ReachesStep(s.S(), s.W, limit, a, a, s.abs);
    GrabBits(s, 20);
    m := AtLen(s.mode.lbits, s.mode.ltree);
    while m.AtLen?
      invariant FastState(s, m) && s.Limit() == limit
      invariant Reaches(s.S(), s.W, limit, a, s.abs)
      invariant m.AtLen? ==> s.bitk + s.abs.block.codes.w >= 20
      invariant m.AtLit? || m.AtLenExt? || m.AtLen? || m.AtWash? || m.AtBadCode?
      invariant m.AtLenExt? ==> m.get <= 5 <= s.bitk && 3 <= m.len && m.len + Pow2(m.get) <= 259
      invariant s.At() >= old(s.At()) && (!m.AtLen? ==> s.At() > old(s.At()))
      invariant 8 * s.availIn >= 8 * old(s.availIn) - 27 && s.availIn <= old(s.availIn)
      decreases m.AtLen?, if m.AtLen? && s.abs.block.InCodes? && s.abs.block.codes.Len? then MAX_BITS - s.abs.block.codes.w else 0
    {
      WBound(s.W, s.abs);
      LiteralNeed(s, m.need, m.tree);
      ghost var b := s.abs;
      m := LookUpLiteral(s, m.need, m.tree);
      ReachesStep(s.S(), s.W, limit, a, b, s.abs);
      if m.AtLen? { WBound(s.W, s.abs); }
    }
  }

  /** Decode a distance with its extra bits. */
  method FastDistance(s: Inflater, c: nat) returns (m: CodesMode)
    requires s.mode.InHuffman? && FastState(s, AtDist(c, s.mode.dbits, s.mode.dtree)) && s.abs.block.codes.w == 0
    requires 8 * s.availIn >= 45
    modifies s`nextIn, s`availIn, s`bitb, s`bitk, s`returned, s`abs
    ensures FastState(s, m) && s.Limit() == old(s.Limit())
    ensures Good(s.W, old(s.abs)) && Reaches(s.S(), s.W, s.Limit(), old(s.abs), s.abs)
    ensures (m.AtCopy? && m.len == c) || m.AtBadCode?
    ensures s.At() >= old(s.At()) && s.availIn <= old(s.availIn)
  {
    hide Shl, Shr, Low, Rev, MaxLen, LenAt, IsTable, Next, Need, NextSymbol, GoodCodes, Good,
      CodesLookahead, Buffer, Ring, Delivered, Peek, Stream, Reaches, TreesReady, Steps;
    ghost var a := s.abs;
    ghost var limit := s.Limit();
    ReachesRefl(s.S(), s.W, limit, a);
    GoodIs(s.W, a);
    GrabBits(s, 15);
    m := AtDist(c, s.mode.dbits, s.mode.dtree);
    while m.AtDist?
      invariant FastState(s, m) && s.Limit() == limit
      invariant Reaches(s.S(), s.W, limit, a, s.abs)
      invariant m.AtDist? ==> m.dlen == c && s.bitk + s.abs.block.codes.w >= 15
      invariant m.AtDistExt? || m.AtDist? || m.AtBadCode?
      invariant m.AtDistExt? ==> m.len == c
      invariant s.At() >= old(s.At())
      invariant 8 * s.availIn >= 22 && s.availIn <= old(s.availIn)
      decreases m.AtDist?, if m.AtDist? && s.abs.block.InCodes? && s.abs.block.codes.Dist? then MAX_BITS - s.abs.block.codes.w else 0
    {
      WBound(s.W, s.abs);
      DistanceNeed(s, c, m.need, m.tree);
      ghost var b := s.abs;
      m := LookUpDistance(s, m.dlen, m.need, m.tree);
      ReachesStep(s.S(), s.W, limit, a, b, s.abs);
      if m.AtDist? { WBound(s.W, s.abs); }
    }
    if m.AtDistExt? {
      ghost var b := s.abs;
      ExtraNeed(s, m);
      GrabBits(s, m.get);
      var d := TakeDistanceBits(s, c, m.dist, m.get);
      m := AtCopy(c, d);
      ReachesStep(s.S(), s.W, limit, a, b, s.abs);
    }
  }

  lemma GoodIs(W: nat, a: State)
    requires Good(W, a)
    ensures Good(W, a)
  {
  }

  /** Copy `n` bytes from window index `r` on; neither end is reached. */
  method CopyRun(s: Inflater, n: nat, r: int, ghost c: nat, ghost dist: nat)
    requires FastState(s, AtCopy(c, dist)) && n <= c
    requires BackIndex(s.W, s.write, BackDistance(s.W, dist), r) && r + n <= s.W
    requires n <= Wavail(s)
    modifies s`write, s`abs, s.window
    ensures FastState(s, AtCopy(c - n, dist)) && Wavail(s) == old(Wavail(s)) - n
    ensures s.write == old(s.write) + n
    ensures n > 0 ==> BackIndex(s.W, s.write, BackDistance(s.W, dist), if r + n == s.W then 0 else r + n)
    ensures Good(s.W, old(s.abs)) && Reaches(s.S(), s.W, s.Limit(), old(s.abs), s.abs)
  {
    hide Shl, Shr, Low, Rev, MaxLen, LenAt, IsTable, Next, Need, NextSymbol, GoodCodes, Good, CodesLookahead, Buffer, Ring, Delivered, Peek, Stream, TreesReady, Reaches, Steps, BackDistance, CodesMatch;
    ghost var a := s.abs;
    ReachesRefl(s.S(), s.W, s.Limit(), a);
    var i, f := 0, r;
    while i < n
      invariant 0 <= i <= n && FastState(s, AtCopy(c - i, dist))
      invariant Wavail(s) == old(Wavail(s)) - i && s.write == old(s.write) + i
      invariant f == (if i > 0 && r + i == s.W then 0 else r + i)
      invariant BackIndex(s.W, s.write, BackDistance(s.W, dist), f)
      invariant Reaches(s.S(), s.W, s.Limit(), a, s.abs)
    {
      ghost var b := s.abs;
      f := CopyByte(s, f, c - i, dist);
      ReachesStep(s.S(), s.W, s.Limit(), a, b, s.abs);
      i := i + 1;
    }
  }

  lemma BackDirect(W: nat, dist: nat)
    requires 0 < dist <= W
    ensures BackDistance(W, dist) == dist
  {
  }

  /** Do the copy; there is room for all of it before the end of the window. */
  method FastCopy(s: Inflater, c0: nat, dist: nat)
    requires FastState(s, AtCopy(c0, dist)) && 3 <= c0 <= Wavail(s)
    modifies s`write, s`abs, s.window
    ensures FastState(s, AtStart)
    ensures Good(s.W, old(s.abs)) && Reaches(s.S(), s.W, s.Limit(), old(s.abs), s.abs)
  {
    hide Shl, Shr, Low, Rev, MaxLen, LenAt, IsTable, Next, Need, NextSymbol, GoodCodes, Good,
      CodesLookahead, Buffer, Ring, Delivered, Peek, Stream, Reaches, TreesReady, Steps, BackDistance;
    ghost var a := s.abs;
    ghost var limit := s.Limit();
    DistPositive(s.W, a);
    BufferBound(s.S(), s.nextIn, s.bitk, s.bitb, s.returned);
    var c := c0;
    if s.write >= dist { BackDirect(s.W, dist); }
    var r := CopyFrom(s.W, s.write, dist);
    if s.write < dist {
      // wrapped copy, if needed
      var e := s.W - r;
      if c > e {
        c := c - e;
        CopyRun(s, e, r, c0, dist);
        ghost var b := s.abs;
        CopyRun(s, c, 0, c, dist);
        ReachesTrans(s.S(), s.W, limit, a, b, s.abs);
      } else {
        CopyRun(s, c, r, c, dist);
      }
    } else {
      CopyRun(s, c, r, c, dist);
    }
    ghost var b := s.abs;
    CopyEnd(s.S(), s.W, limit, b);
    s.abs := Next(s.S(), s.W, b);
    ReachesStep(s.S(), s.W, limit, a, b, s.abs);
  }

  /** One round of the fast loop: a literal, a string, the end of the block or an error. */
  method FastSymbol(s: Inflater) returns (m: CodesMode)
    requires FastState(s, AtStart) && Wavail(s) >= 258 && s.availIn >= 10
    modifies s`nextIn, s`availIn, s`bitb, s`bitk, s`returned, s`abs, s`write, s.window
    ensures FastState(s, m) && s.Limit() == old(s.Limit())
    ensures Good(s.W, old(s.abs)) && Reaches(s.S(), s.W, s.Limit(), old(s.abs), s.abs)
    ensures m == AtStart || m == AtWash || m == AtBadCode
    ensures s.At() > old(s.At()) && s.availIn <= old(s.availIn)
  {
    hide Shl, Shr, Low, Rev, MaxLen, LenAt, IsTable, Next, Need, NextSymbol, GoodCodes, Good,
      CodesLookahead, Buffer, Ring, Delivered, Peek, Stream, Reaches, TreesReady, Steps, BackDistance;
    ghost var a := s.abs;
    ghost var limit := s.Limit();
    m := FastLiteral(s);
    ghost var b := s.abs;
    if m.AtLit? {
      BufferBound(s.S(), s.nextIn, s.bitk, s.bitb, s.returned);
      LitStep(s.S(), s.W, limit, b);
      OutByte(s, m.lit, Next(s.S(), s.W, b));
      ReachesStep(s.S(), s.W, limit, a, b, s.abs);
      m := AtStart;
    } else if m.AtLenExt? {
      var c := TakeLengthBits(s, m.len, m.get);
      ReachesStep(s.S(), s.W, limit, a, b, s.abs);
      b := s.abs;
      m := FastDistance(s, c);
      ReachesTrans(s.S(), s.W, limit, a, b, s.abs);
      if m.AtCopy? {
        b := s.abs;
        FastCopy(s, c, m.dist);
        ReachesTrans(s.S(), s.W, limit, a, b, s.abs);
        m := AtStart;
      }
    }
  }

  datatype FastResult = FastOk | FastStreamEnd | FastDataError

  /** The symbol mode the caller goes on with. */
  function AfterFast(r: FastResult): CodesMode {
    match r
    case FastOk => AtStart
    case FastStreamEnd => AtWash
    case FastDataError => AtBadCode
  }

  /** Whole symbols without any check, while the room and the input left are enough for every symbol there
    * is; bytes loaded in excess go back. */
  method InflateFast(s: Inflater) returns (r: FastResult)
    requires InSymbols(s) && s.mode.codes.AtStart?
    requires Wavail(s) >= 258 && s.availIn >= 10
    modifies s`nextIn, s`availIn, s`bitb, s`bitk, s`returned, s`abs, s`write, s.window
    ensures FastState(s, AfterFast(r)) && s.bitk <= 15 && s.Limit() == old(s.Limit())
    ensures Good(s.W, old(s.abs)) && Reaches(s.S(), s.W, s.Limit(), old(s.abs), s.abs)
    ensures s.abs.pos > old(s.abs.pos)
  {
    hide Shl, Shr, Low, Rev, MaxLen, LenAt, IsTable, Next, Need, NextSymbol, GoodCodes, Good,
      CodesLookahead, Buffer, Ring, Delivered, Peek, Stream, Reaches, TreesReady, Steps, BackDistance;
    ghost var a := s.abs;
    ghost var limit := s.Limit();
    var start := s.availIn;
    var m := FastSymbol(s);
    while m.AtStart? && Wavail(s) >= 258 && s.availIn >= 10
      invariant FastState(s, m) && s.Limit() == limit
      invariant Good(s.W, a) && Reaches(s.S(), s.W, limit, a, s.abs)
      invariant m == AtStart || m == AtWash || m == AtBadCode
      invariant s.At() > old(s.At()) && s.availIn <= start
      decreases 8 * limit - s.At()
    {
      BufferBound(s.S(), s.nextIn, s.bitk, s.bitb, s.returned);
      ghost var b := s.abs;
      m := FastSymbol(s);
      ReachesTrans(s.S(), s.W, limit, a, b, s.abs);
      BufferBound(s.S(), s.nextIn, s.bitk, s.bitb, s.returned);
    }
    // return unused bytes
    var c := start - s.availIn;
    if s.bitk / 8 < c { c := s.bitk / 8; }
    UsedInput(s, old(s.nextIn), old(s.bitk), start);
    ReturnBytes(s, c);
    r := if m.AtStart? then FastOk else if m.AtWash? then FastStreamEnd else FastDataError;
  }

  lemma UsedInput(s: Inflater, nextIn: nat, bitk: nat, availIn: nat)
    requires s.Limit() == nextIn + availIn && s.At() > 8 * nextIn - bitk
    ensures 8 * (availIn - s.availIn) >= s.bitk - bitk
  {
  }
}
