/** How a decoder state stands for a state of the DEFLATE machine. */
module InfState {
  import opened Bits
  import opened Canonical
  import opened HuftTables
  import opened HuftBuild
  import opened InflateTrees
  import opened Deflate
  import opened DeflateRun
  import opened InfUtil

  /** `at` is the stream position of the bit buffer; inside a symbol the bits dropped so far
    * select the table looked up next. */
  ghost predicate CodesMatch(T: seq<Huft>, hl: nat, hd: nat, S: nat, at: int, pos: nat,
                             lit: Tree, dist: Tree, c: CodesMode, d: Codes)
    requires hl <= |T| && hd <= |T|
  {
    match c
    case AtStart => d == Start && at == pos
    case AtLen(need, tree) =>
      && d.Len? && at == pos + d.w && 0 < MaxLen(lit.lens) && d.w < CodeBits(lit, Shr(S, pos))
      && IsTable(T[..hl], lit, tree, need, d.w, Low(Shr(S, pos), d.w))
    case AtLenExt(len, get) => d == LenExt(len, get) && at == pos && get < 16
    case AtDist(len, need, tree) =>
      && d.Dist? && d.len == len && at == pos + d.w && 0 < MaxLen(dist.lens) && d.w < CodeBits(dist, Shr(S, pos))
      && IsTable(T[..hd], dist, tree, need, d.w, Low(Shr(S, pos), d.w))
    case AtDistExt(len, dist, get) => d == DistExt(len, dist, get) && at == pos && get < 16
    case AtCopy(len, dist) => d == Copy(len, dist) && at == pos
    case AtLit(b) => d == Lit(b) && at == pos
    case AtWash => d == Wash && at == pos
    case AtEnd => d == Wash && at == pos
    case AtBadCode => d == BadCode && at == pos
  }

  ghost predicate ModeMatch(T: seq<Huft>, hl: nat, hd: nat, S: nat, at: int, k: nat, m: BlockMode, a: State) {
    && (m.InLens? || m.InBad? || k <= 15)
    && match m
       case InType => a.block == Type && at == a.pos
       case InLens => a.block == Lens && at == a.pos && k % 8 == 0
       case InStored(left) => a.block == Stored(left) && at == a.pos && k == 0
       case InTable => a.block == Table && at == a.pos
       case InBTree(table, index) => a.block == BTree(table, index) && at == a.pos
       case InDTree(table, index, bb, tb) =>
         && a.block.DTree? && a.block.table == table && a.block.index == index && at == a.pos
         && bb == a.block.tree.l
         && hl <= |T| && IsTable(T[..hl], a.block.tree, tb, bb, 0, 0)
       case InHuffman(lbits, dbits, ltree, dtree, c) =>
         && a.block.InCodes? && lbits == a.block.lit.l && dbits == a.block.dist.l
         && TreesReady(T, a.block.lit, ltree, hl, a.block.dist, dtree, hd)
         && CodesMatch(T, hl, hd, S, at, a.pos, a.block.lit, a.block.dist, c, a.block.codes)
       case InDry => a.block == Dry && at == a.pos && k < 8
       case InDone => a.block == Done && at == a.pos && k < 8
       case InBad => a.block == Bad
  }

  /** The decoder is between two calls or two steps. */
  ghost predicate Valid(s: Inflater)
    reads s, s.window, s.hufts, s.blens
  {
    && s.InputOK() && s.WindowOK() && s.SpaceOK()
    && Good(s.W, s.abs) && s.last == s.abs.last
    && (s.mode.InStored? ==> s.returned == 0)
    && ModeMatch(s.hufts[..], s.hl, s.hd, s.S(), s.At(), s.bitk, s.mode, s.abs)
  }

  /** Decoding symbols. */
  ghost predicate InSymbols(s: Inflater)
    reads s, s.window, s.hufts, s.blens
  {
    Valid(s) && s.mode.InHuffman?
  }

  /** The machine can take its next step, and does. */
  ghost predicate Steps(S: nat, W: nat, limit: nat, a: State, b: State)
  {
    Good(W, a) && Enabled(S, W, limit, a) && b == Next(S, W, a)
  }

  /** The machine has to wait for input. */
  ghost predicate Starved(S: nat, W: nat, limit: nat, a: State)
  {
    Good(W, a) && !Terminal(a) && !Enabled(S, W, limit, a)
  }

  /** With no output space left, decoding has to wait only when the window is full or its content
    * has to be delivered first, at the end of a block of symbols and of the stream. */
  predicate Stuffed(W: nat, pending: nat, a: State) {
    || pending + 1 >= W
    || (pending > 0 && (a.block.Dry? || (a.block.InCodes? && a.block.codes.Wash?)))
  }

  /** Why decoding stopped: input or output space ran out, or the end or an error was met. */
  datatype Status = Waiting | StreamEnd | Corrupt
}
