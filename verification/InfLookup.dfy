/** What a table lookup means for the symbol being decoded. */
module InfLookup {
  import opened Bits
  import opened Canonical
  import opened HuftTables
  import opened HuftLabels
  import opened HuftBuild
  import opened InflateTrees
  import opened Deflate
  import opened DeflateRun
  import opened InfUtil
  import opened InfState

  // ----- Looking up a symbol

  lemma LengthExtras(i: nat)
    requires i < |CPLEXT|
    ensures CPLEXT[i] == 112 || (CPLEXT[i] <= 5 && 3 <= CPLENS[i] && CPLENS[i] + Pow2(CPLEXT[i]) <= 259)
  {
  }

  lemma DistanceExtras(i: nat)
    requires i < |CPDEXT|
    ensures CPDEXT[i] <= 13
  {
  }

  /** A length entry: at most 5 extra bits, and lengths from 3 to 258. */
  predicate LengthEntry(exop: nat, base: nat) {
    80 <= exop <= 85 && 3 <= base && base + Pow2(exop - 80) <= 259
  }

  /** Entries that end a literal/length code. */
  predicate LiteralEntry(exop: nat, base: nat) {
    (exop == 0 && base < 256) || exop == EXOP_END_OF_BLOCK || exop == EXOP_INVALID || LengthEntry(exop, base)
  }

  /** Entries that end a distance code. */
  predicate DistanceEntry(exop: nat) {
    exop == EXOP_INVALID || 80 <= exop <= 93
  }

  lemma LiteralExops(s: nat)
    requires InAlphabet(LITERALS, s)
    ensures LiteralEntry(SymbolExop(LITERALS, s), SymbolBase(LITERALS, s))
  {
    hide CPLENS, CPLEXT;
    if s >= 257 { LengthExtras(s - 257); }
  }

  lemma DistanceExops(s: nat)
    requires InAlphabet(DISTANCES, s)
    ensures DistanceEntry(SymbolExop(DISTANCES, s))
  {
    hide CPDIST, CPDEXT;
    DistanceExtras(s);
  }

  /** A lookup within good trees takes at most 9 bits. */
  lemma LookupWidth(tree: Tree, w: nat, x: nat)
    requires GoodTree(tree) && w < MaxLen(tree.lens) && IsLevel(tree.l, w)
    ensures TableBits(tree, w, Low(x, w)) <= tree.l
  {
    hide Shl, Shr, Low, Rev, MaxLen, LenAt, IsLevel;
    LowBound(x, w);
    assert LenAt(tree.lens, Pos(tree.lens, Low(x, w))) <= w + tree.l;
  }

  /** What one lookup in the literal/length tables finds. */
  lemma LiteralLookup(T: seq<Huft>, lit: Tree, dist: Tree, tree: nat, need: nat, w: nat, x: nat)
    requires GoodCodes(lit, dist, Len(w))
    requires IsTable(T, lit, tree, need, w, Low(x, w))
    ensures tree + Low(Shr(x, w), need) < |T|
    ensures Lookahead(lit, w, x) == w + need && need <= MAX_WIDTH
    ensures var e := T[tree + Low(Shr(x, w), need)];
            if Decided(lit, w, x) then
              var (exop, base) := SymbolEntry(lit, x);
              && e.bits + w == CodeBits(lit, x) && e.bits <= need && 0 < CodeBits(lit, x)
              && e.exop == exop && (exop != EXOP_INVALID ==> e.base == base)
              && LiteralEntry(exop, base)
            else
              && e.bits == need == lit.l && 0 < lit.l && 0 < e.exop < 16
              && w + lit.l < MaxLen(lit.lens)
              && tree + Low(Shr(x, w), need) + e.base <= |T|
              && IsTable(T, lit, tree + Low(Shr(x, w), need) + e.base, e.exop, w + lit.l, Low(x, w + lit.l))
  {
    hide Shl, Shr, Low, Rev, MaxLen, LenAt, SymbolAt, TableBits, Shallow, SymbolExop, SymbolBase, InAlphabet, IsTable, IsLevel;
    LookupWidth(lit, w, x);
    TableFacts(T, lit, tree, need, w, Low(x, w));
    Lookup(T, lit, tree, need, w, x);
    if Decided(lit, w, x) {
      match SymbolAt(lit.lens, Pos(lit.lens, x)) {
        case Symbol(s) => LiteralExops(s);
        case NoSymbol =>
      }
    } else {
      UndecidedLevel(lit, w, x);
    }
  }

  lemma TableFacts(T: seq<Huft>, tree: Tree, t: nat, j: nat, w: nat, pat: nat)
    requires IsTable(T, tree, t, j, w, pat)
    ensures w < MaxLen(tree.lens) && j == TableBits(tree, w, pat)
  {
  }

  /** What one lookup in the distance tables finds. */
  lemma DistanceLookup(T: seq<Huft>, lit: Tree, dist: Tree, len: nat, tree: nat, need: nat, w: nat, x: nat)
    requires GoodCodes(lit, dist, Dist(len, w))
    requires IsTable(T, dist, tree, need, w, Low(x, w))
    ensures tree + Low(Shr(x, w), need) < |T|
    ensures Lookahead(dist, w, x) == w + need && need <= MAX_WIDTH
    ensures var e := T[tree + Low(Shr(x, w), need)];
            if Decided(dist, w, x) then
              var (exop, base) := SymbolEntry(dist, x);
              && e.bits + w == CodeBits(dist, x) && e.bits <= need && 0 < CodeBits(dist, x)
              && e.exop == exop && (exop != EXOP_INVALID ==> e.base == base)
              && DistanceEntry(exop)
            else
              && e.bits == need == dist.l && 0 < dist.l && 0 < e.exop < 16
              && w + dist.l < MaxLen(dist.lens)
              && tree + Low(Shr(x, w), need) + e.base <= |T|
              && IsTable(T, dist, tree + Low(Shr(x, w), need) + e.base, e.exop, w + dist.l, Low(x, w + dist.l))
  {
    hide Shl, Shr, Low, Rev, MaxLen, LenAt, SymbolAt, TableBits, Shallow, SymbolExop, SymbolBase, InAlphabet, IsTable, IsLevel;
    LookupWidth(dist, w, x);
    TableFacts(T, dist, tree, need, w, Low(x, w));
    Lookup(T, dist, tree, need, w, x);
    if Decided(dist, w, x) {
      match SymbolAt(dist.lens, Pos(dist.lens, x)) {
        case Symbol(s) => DistanceExops(s);
        case NoSymbol =>
      }
    } else {
      UndecidedLevel(dist, w, x);
    }
  }

  /** Interpreting the entry's operation byte bit by bit. */
  function LenMode(e: Huft, t: nat): CodesMode {
    if e.exop == 0 then AtLit(e.base % 256)
    else if e.exop / 16 % 2 == 1 then AtLenExt(e.base, e.exop % 16)
    else if e.exop / 64 % 2 == 0 then AtLen(e.exop, t + e.base)
    else if e.exop / 32 % 2 == 1 then AtWash
    else AtBadCode
  }

  function DistMode(len: nat, e: Huft, t: nat): CodesMode {
    if e.exop / 16 % 2 == 1 then AtDistExt(len, e.base, e.exop % 16)
    else if e.exop / 64 % 2 == 0 then AtDist(len, e.exop, t + e.base)
    else AtBadCode
  }

  /** Interpreting a literal/length entry does what the machine does. */
  lemma LenModeMatches(T: seq<Huft>, hl: nat, hd: nat, S: nat, pos: nat, lit: Tree, dist: Tree,
                       tree: nat, need: nat, w: nat)
    requires hl <= |T| && hd <= |T|
    requires GoodCodes(lit, dist, Len(w)) && w < CodeBits(lit, Shr(S, pos))
    requires IsTable(T[..hl], lit, tree, need, w, Low(Shr(S, pos), w))
    ensures var t := tree + Peek(S, pos + w, need);
            && t < hl && need <= MAX_WIDTH && T[t].bits <= need && 0 < T[t].bits
            && CodesLookahead(S, pos, lit, dist, Len(w)) == w + need <= MAX_BITS
            && (LenMode(T[t], t).AtLenExt? ==>
                  T[t].exop % 16 <= 5 && 3 <= T[t].base && T[t].base + Pow2(T[t].exop % 16) <= 259)
            && var (pos', d) := NextSymbol(S, pos, lit, dist, Len(w));
               && CodesMatch(T, hl, hd, S, pos + w + T[t].bits, pos', lit, dist, LenMode(T[t], t), d)
               && (LenMode(T[t], t).AtLen? ==> pos' == pos)
               && pos' <= pos + MAX_BITS
  {
    hide Shl, Shr, Low, Rev, MaxLen, LenAt, SymbolEntry, TableBits, Shallow, IsTable, IsLevel, Decided, Lookahead, GoodCodes;
    var x := Shr(S, pos);
    ShrShr(S, pos, w);
    LiteralLookup(T[..hl], lit, dist, tree, need, w, x);
    var t := tree + Peek(S, pos + w, need);
    assert T[..hl][t] == T[t];
    DecidedMeans(lit, w, x);
    GoodTreeBound(lit, dist, w);
  }

  lemma GoodTreeBound(lit: Tree, dist: Tree, w: nat)
    requires GoodCodes(lit, dist, Len(w))
    ensures w < MaxLen(lit.lens) <= MAX_BITS
    ensures forall x :: Lookahead(lit, w, x) <= MAX_BITS
  {
    hide MaxLen, LenAt, Shallow;
  }

  lemma GoodDistBound(lit: Tree, dist: Tree, len: nat, w: nat)
    requires GoodCodes(lit, dist, Dist(len, w))
    ensures w < MaxLen(dist.lens) <= MAX_BITS
    ensures forall x :: Lookahead(dist, w, x) <= MAX_BITS
  {
    hide MaxLen, LenAt, Shallow;
  }

  lemma DecidedMeans(tree: Tree, w: nat, x: nat)
    requires w < MaxLen(tree.lens)
    ensures Decided(tree, w, x) <==> CodeBits(tree, x) <= Lookahead(tree, w, x)
  {
  }

  lemma DistModeMatches(T: seq<Huft>, hl: nat, hd: nat, S: nat, pos: nat, lit: Tree, dist: Tree,
                        len: nat, tree: nat, need: nat, w: nat)
    requires hl <= |T| && hd <= |T|
    requires GoodCodes(lit, dist, Dist(len, w)) && w < CodeBits(dist, Shr(S, pos))
    requires IsTable(T[..hd], dist, tree, need, w, Low(Shr(S, pos), w))
    ensures var t := tree + Peek(S, pos + w, need);
            && t < hd && need <= MAX_WIDTH && T[t].bits <= need && 0 < T[t].bits
            && CodesLookahead(S, pos, lit, dist, Dist(len, w)) == w + need <= MAX_BITS
            && var (pos', d) := NextSymbol(S, pos, lit, dist, Dist(len, w));
               && CodesMatch(T, hl, hd, S, pos + w + T[t].bits, pos', lit, dist, DistMode(len, T[t], t), d)
               && (DistMode(len, T[t], t).AtDist? ==> pos' == pos)
               && pos' <= pos + MAX_BITS
  {
    hide Shl, Shr, Low, Rev, MaxLen, LenAt, SymbolEntry, TableBits, Shallow, IsTable, IsLevel, Decided, Lookahead, GoodCodes;
    var x := Shr(S, pos);
    ShrShr(S, pos, w);
    DistanceLookup(T[..hd], lit, dist, len, tree, need, w, x);
    var t := tree + Peek(S, pos + w, need);
    assert T[..hd][t] == T[t];
    DecidedMeans(dist, w, x);
    GoodDistBound(lit, dist, len, w);
  }

  // ----- The cases of the switch

  /** A step within a symbol that writes nothing changes position and symbol state only. */
  lemma SilentStep(S: nat, W: nat, a: State)
    requires Good(W, a) && a.block.InCodes? && !a.block.codes.Wash? && !Writes(a)
    ensures GoodCodes(a.block.lit, a.block.dist, a.block.codes)
    ensures var (pos, d) := NextSymbol(S, a.pos, a.block.lit, a.block.dist, a.block.codes);
            && Next(S, W, a) == a.(pos := pos, block := a.block.(codes := d))
            && Need(S, W, a) == CodesLookahead(S, a.pos, a.block.lit, a.block.dist, a.block.codes)
    ensures Good(W, Next(S, W, a))
  {
    hide Shl, Shr, Low, Rev, MaxLen, LenAt, SymbolEntry, Decided, Lookahead, NextSymbol, CodesLookahead;
    NextGood(S, W, a);
  }

  lemma StepsIntro(S: nat, W: nat, limit: nat, a: State)
    requires Good(W, a) && !Terminal(a)
    ensures a.pos + Need(S, W, a) <= 8 * limit ==> Steps(S, W, limit, a, Next(S, W, a))
    ensures a.pos + Need(S, W, a) > 8 * limit ==> Starved(S, W, limit, a)
  {
    hide Good, Next, Need;
  }

  lemma LenExtMatches(T: seq<Huft>, hl: nat, hd: nat, S: nat, a: State, lt: nat, dt: nat)
    requires a.block.InCodes? && a.block.codes.LenExt?
    requires GoodCodes(a.block.lit, a.block.dist, a.block.codes)
    requires TreesReady(T, a.block.lit, lt, hl, a.block.dist, dt, hd)
    ensures var (lit, dist, c) := (a.block.lit, a.block.dist, a.block.codes);
            var (pos, d) := NextSymbol(S, a.pos, lit, dist, c);
            && CodesLookahead(S, a.pos, lit, dist, c) == c.get
            && d == Dist(c.len + Peek(S, a.pos, c.get), 0)
            && CodesMatch(T, hl, hd, S, a.pos + c.get, pos, lit, dist,
                          AtDist(c.len + Peek(S, a.pos, c.get), dist.l, dt), d)
  {
    hide Shl, Shr, Low, Rev, MaxLen, LenAt, IsTable, Shallow;
    FirstLookup(S, a.pos + a.block.codes.get);
  }

  /** At the start of a symbol nothing has been looked up yet. */
  lemma FirstLookup(S: nat, pos: nat)
    ensures Low(Shr(S, pos), 0) == 0
  {
  }

  lemma DistExtIs(S: nat, pos: nat, lit: Tree, dist: Tree, len: nat, d: nat, get: nat)
    requires GoodCodes(lit, dist, DistExt(len, d, get))
    ensures NextSymbol(S, pos, lit, dist, DistExt(len, d, get)) == (pos + get, Copy(len, d + Peek(S, pos, get)))
    ensures CodesLookahead(S, pos, lit, dist, DistExt(len, d, get)) == get
  {
  }

  /** Setting up for a symbol selects the first table. */
  lemma StartMatches(T: seq<Huft>, hl: nat, hd: nat, S: nat, pos: nat, lit: Tree, dist: Tree, lt: nat, dt: nat)
    requires GoodCodes(lit, dist, Start)
    requires TreesReady(T, lit, lt, hl, dist, dt, hd)
    ensures NextSymbol(S, pos, lit, dist, Start) == (pos, Len(0))
    ensures CodesLookahead(S, pos, lit, dist, Start) == 0
    ensures CodesMatch(T, hl, hd, S, pos, pos, lit, dist, AtLen(lit.l, lt), Len(0))
  {
    hide Shl, Shr, Low, Rev, MaxLen, LenAt, IsTable, Shallow;
    FirstLookup(S, pos);
  }

  // ----- Copying

  /** `f` is the window index of the byte `d` back from the write position. */
  predicate BackIndex(W: nat, write: nat, d: nat, f: int) {
    0 <= f < W && (f == write - d || f == write - d + W)
  }

  /** One byte of a copy. */
  lemma CopyStep(S: nat, W: nat, limit: nat, a: State, win: seq<byte>, write: nat, f: int)
    requires Good(W, a) && a.block.InCodes? && a.block.codes.Copy? && a.block.codes.len > 0
    requires |win| == W && Ring(win, write, a.hist) && a.pos <= 8 * limit
    requires BackIndex(W, write, BackDistance(W, a.block.codes.dist), f)
    ensures var b := Next(S, W, a);
            && Steps(S, W, limit, a, b) && Good(W, b)
            && b == a.(hist := a.hist + [win[f]],
                       block := a.block.(codes := Copy(a.block.codes.len - 1, a.block.codes.dist)))
  {
    hide Shl, Shr, Low, Rev, MaxLen, LenAt, Ring;
    RingBack(win, write, a.hist, a.block.codes.dist, f);
    NextGood(S, W, a);
  }

  /** The end of a copy. */
  lemma CopyEnd(S: nat, W: nat, limit: nat, a: State)
    requires Good(W, a) && a.block.InCodes? && a.block.codes.Copy? && a.block.codes.len == 0
    requires a.pos <= 8 * limit
    ensures var b := Next(S, W, a);
            && Steps(S, W, limit, a, b) && Good(W, b)
            && b == a.(block := a.block.(codes := Start))
  {
    hide Shl, Shr, Low, Rev, MaxLen, LenAt;
    NextGood(S, W, a);
  }

  /** One literal. */
  lemma LitStep(S: nat, W: nat, limit: nat, a: State)
    requires Good(W, a) && a.block.InCodes? && a.block.codes.Lit?
    requires a.pos <= 8 * limit
    ensures var b := Next(S, W, a);
            && Steps(S, W, limit, a, b) && Good(W, b)
            && b == a.(hist := a.hist + [a.block.codes.lit], block := a.block.(codes := Start))
  {
    hide Shl, Shr, Low, Rev, MaxLen, LenAt;
    NextGood(S, W, a);
  }

  /** After writing a byte, the next index to copy from. */
  lemma BackIndexNext(W: nat, write: nat, d: nat, f: int)
    requires BackIndex(W, write, d, f) && 0 < d <= W && write < W
    ensures BackIndex(W, write + 1, d, if f + 1 == W then 0 else f + 1)
  {
  }

  /** Find the window index to copy from; distances beyond the window wrap around. */
  method CopyFrom(W: nat, write: nat, dist: nat) returns (f: int)
    requires 0 < W && write <= W && 0 < dist
    ensures BackIndex(W, write, BackDistance(W, dist), f)
  {
    f := write - dist;
    ghost var d := dist;
    while f < 0
      invariant f < 0 ==> f == write - d && 0 < d && BackDistance(W, d) == BackDistance(W, dist)
      invariant f >= 0 ==> BackIndex(W, write, BackDistance(W, dist), f)
      decreases -f
    {
      f := f + W;
      if d > W { d := d - W; }
    }
  }

  /** The decoder state stands for the machine's state, with `m` in place of the symbol mode. */
  ghost predicate FastState(s: Inflater, m: CodesMode)
    reads s, s.window, s.hufts, s.blens
  {
    && s.InputOK() && s.WindowOK() && s.SpaceOK()
    && Good(s.W, s.abs) && s.abs.block.InCodes? && s.mode.InHuffman? && s.last == s.abs.last
    && s.mode.lbits == s.abs.block.lit.l && s.mode.dbits == s.abs.block.dist.l
    && TreesReady(s.hufts[..], s.abs.block.lit, s.mode.ltree, s.hl, s.abs.block.dist, s.mode.dtree, s.hd)
    && CodesMatch(s.hufts[..], s.hl, s.hd, s.S(), s.At(), s.abs.pos,
                  s.abs.block.lit, s.abs.block.dist, m, s.abs.block.codes)
  }

  /** What a lookup needs: at most 9 bits, at most 15 with those before; if the bits are not
    * there, neither are those the machine needs. */
  lemma LiteralNeed(s: Inflater, need: nat, tree: nat)
    requires FastState(s, AtLen(need, tree))
    ensures need <= MAX_WIDTH && need + s.abs.block.codes.w <= MAX_BITS
    ensures s.bitk < need && s.availIn == 0 ==> Starved(s.S(), s.W, s.Limit(), s.abs)
  {
    hide Shl, Shr, Low, Rev, MaxLen, LenAt, IsTable, Next, Need, NextSymbol, GoodCodes, Good,
      CodesLookahead, Buffer, Ring, Delivered, Peek, Stream;
    var a := s.abs;
    SilentStep(s.S(), s.W, a);
    StepsIntro(s.S(), s.W, s.Limit(), a);
    LenModeMatches(s.hufts[..], s.hl, s.hd, s.S(), a.pos, a.block.lit, a.block.dist, tree, need, a.block.codes.w);
  }

  lemma DistanceNeed(s: Inflater, len: nat, need: nat, tree: nat)
    requires FastState(s, AtDist(len, need, tree))
    ensures need <= MAX_WIDTH && need + s.abs.block.codes.w <= MAX_BITS
    ensures s.bitk < need && s.availIn == 0 ==> Starved(s.S(), s.W, s.Limit(), s.abs)
  {
    hide Shl, Shr, Low, Rev, MaxLen, LenAt, IsTable, Next, Need, NextSymbol, GoodCodes, Good,
      CodesLookahead, Buffer, Ring, Delivered, Peek, Stream;
    var a := s.abs;
    SilentStep(s.S(), s.W, a);
    StepsIntro(s.S(), s.W, s.Limit(), a);
    DistModeMatches(s.hufts[..], s.hl, s.hd, s.S(), a.pos, a.block.lit, a.block.dist, len, tree, need, a.block.codes.w);
  }

  /** One literal/length lookup: fetch the entry the next bits select and drop its bits. */
  method LookUpLiteral(s: Inflater, need: nat, tree: nat) returns (m: CodesMode)
    requires FastState(s, AtLen(need, tree)) && s.bitk >= need
    modifies s`bitb, s`bitk, s`abs
    ensures FastState(s, m) && Steps(s.S(), s.W, s.Limit(), old(s.abs), s.abs)
    ensures m.AtLit? || m.AtLenExt? || m.AtLen? || m.AtWash? || m.AtBadCode?
    ensures m.AtLen? ==> s.abs.block.codes.w > old(s.abs.block.codes.w)
                         && s.bitk + s.abs.block.codes.w == old(s.bitk + s.abs.block.codes.w)
    ensures !m.AtLen? ==> s.bitk + 15 >= old(s.bitk + s.abs.block.codes.w)
    ensures s.bitk < old(s.bitk)
    ensures m.AtLenExt? ==> m.get <= 5 && 3 <= m.len && m.len + Pow2(m.get) <= 259
    ensures s.At() > old(s.At())
  {
    hide Shl, Shr, Low, Rev, MaxLen, LenAt, IsTable, Next, Need, NextSymbol, GoodCodes, Good,
      CodesLookahead, Buffer, Ring, Delivered, Peek, Stream;
    ghost var a := s.abs;
    ghost var lit, dist, w := a.block.lit, a.block.dist, a.block.codes.w;
    SilentStep(s.S(), s.W, a);
    StepsIntro(s.S(), s.W, s.Limit(), a);
    LenModeMatches(s.hufts[..], s.hl, s.hd, s.S(), a.pos, lit, dist, tree, need, w);
    var v := PeekBits(s, need);
    var t := tree + v;
    var e := s.hufts[t];
    DumpBits(s, e.bits);
    m := LenMode(e, t);
    s.abs := Next(s.S(), s.W, a);
  }

  /** One distance lookup. */
  method LookUpDistance(s: Inflater, len: nat, need: nat, tree: nat) returns (m: CodesMode)
    requires FastState(s, AtDist(len, need, tree)) && s.bitk >= need
    modifies s`bitb, s`bitk, s`abs
    ensures FastState(s, m) && Steps(s.S(), s.W, s.Limit(), old(s.abs), s.abs)
    ensures m.AtDistExt? || m.AtDist? || m.AtBadCode?
    ensures m.AtDist? ==> m.dlen == len && s.abs.block.codes.w > old(s.abs.block.codes.w)
                          && s.bitk + s.abs.block.codes.w == old(s.bitk + s.abs.block.codes.w)
    ensures m.AtDistExt? ==> m.len == len
    ensures s.bitk < old(s.bitk)
    ensures s.At() > old(s.At())
  {
    hide Shl, Shr, Low, Rev, MaxLen, LenAt, IsTable, Next, Need, NextSymbol, GoodCodes, Good,
      CodesLookahead, Buffer, Ring, Delivered, Peek, Stream;
    ghost var a := s.abs;
    ghost var lit, dist, w := a.block.lit, a.block.dist, a.block.codes.w;
    SilentStep(s.S(), s.W, a);
    StepsIntro(s.S(), s.W, s.Limit(), a);
    DistModeMatches(s.hufts[..], s.hl, s.hd, s.S(), a.pos, lit, dist, len, tree, need, w);
    var v := PeekBits(s, need);
    var t := tree + v;
    var e := s.hufts[t];
    DumpBits(s, e.bits);
    m := DistMode(len, e, t);
    s.abs := Next(s.S(), s.W, a);
  }

  lemma DistPositive(W: nat, a: State)
    requires Good(W, a) && a.block.InCodes? && a.block.codes.Copy?
    ensures a.block.codes.dist > 0 && 0 < BackDistance(W, a.block.codes.dist) <= W
  {
  }

  /** Copy one byte within the window. */
  method CopyByte(s: Inflater, f: int, ghost len: nat, ghost dist: nat) returns (f': int)
    requires FastState(s, AtCopy(len, dist)) && len > 0 && Wavail(s) > 0
    requires BackIndex(s.W, s.write, BackDistance(s.W, dist), f)
    modifies s`write, s`abs, s.window
    ensures FastState(s, AtCopy(len - 1, dist)) && s.write == old(s.write) + 1
    ensures f' == (if f + 1 == s.W then 0 else f + 1)
    ensures BackIndex(s.W, s.write, BackDistance(s.W, dist), f')
    ensures Steps(s.S(), s.W, s.Limit(), old(s.abs), s.abs) && s.abs.pos == old(s.abs.pos)
  {
    hide Shl, Shr, Low, Rev, MaxLen, LenAt, IsTable, Next, Need, NextSymbol, GoodCodes, Good, CodesLookahead, Buffer, Ring, Delivered, Peek, Stream, TreesReady, Reaches, Steps, BackDistance;
    ghost var b := s.abs;
    BufferBound(s.S(), s.nextIn, s.bitk, s.bitb, s.returned);
    DistPositive(s.W, b);
    CopyStep(s.S(), s.W, s.Limit(), b, s.window[..], s.write, f);
    BackIndexNext(s.W, s.write, BackDistance(s.W, dist), f);
    var v := s.window[f];
    OutByte(s, v, Next(s.S(), s.W, b));
    f' := if f + 1 == s.W then 0 else f + 1;
  }

  /** Get the extra bits of the length. */
  method TakeLengthBits(s: Inflater, len: nat, get: nat) returns (c: nat)
    requires FastState(s, AtLenExt(len, get)) && get <= s.bitk
    modifies s`bitb, s`bitk, s`abs
    ensures s.mode.InHuffman? && FastState(s, AtDist(c, s.mode.dbits, s.mode.dtree)) && s.abs.block.codes.w == 0
    ensures Steps(s.S(), s.W, s.Limit(), old(s.abs), s.abs)
    ensures s.bitk == old(s.bitk) - get
    ensures len <= c < len + Pow2(get) && s.At() >= old(s.At())
  {
    hide Shl, Shr, Low, Rev, MaxLen, LenAt, IsTable, Next, Need, NextSymbol, GoodCodes, Good,
      CodesLookahead, Buffer, Ring, Delivered, Peek, Stream, TreesReady;
    ghost var a := s.abs;
    SilentStep(s.S(), s.W, a);
    StepsIntro(s.S(), s.W, s.Limit(), a);
    LenExtMatches(s.hufts[..], s.hl, s.hd, s.S(), a, s.mode.ltree, s.mode.dtree);
    BufferBound(s.S(), s.nextIn, s.bitk, s.bitb, s.returned);
    var v := PeekBits(s, get);
    c := len + v;
    DumpBits(s, get);
    s.abs := Next(s.S(), s.W, a);
  }

  /** Take a distance's extra bits. */
  method TakeDistanceBits(s: Inflater, c: nat, dist: nat, get: nat) returns (d: nat)
    requires FastState(s, AtDistExt(c, dist, get)) && get <= s.bitk
    modifies s`bitb, s`bitk, s`abs
    ensures FastState(s, AtCopy(c, d))
    ensures Steps(s.S(), s.W, s.Limit(), old(s.abs), s.abs)
    ensures s.At() >= old(s.At()) && s.bitk == old(s.bitk) - get
  {
    hide Shl, Shr, Low, Rev, MaxLen, LenAt, IsTable, Next, Need, NextSymbol, GoodCodes, Good,
      CodesLookahead, Buffer, Ring, Delivered, Peek, Stream, TreesReady;
    ghost var a := s.abs;
    SilentStep(s.S(), s.W, a);
    StepsIntro(s.S(), s.W, s.Limit(), a);
    DistExtIs(s.S(), a.pos, a.block.lit, a.block.dist, c, dist, get);
    BufferBound(s.S(), s.nextIn, s.bitk, s.bitb, s.returned);
    var v := PeekBits(s, get);
    DumpBits(s, get);
    s.abs := Next(s.S(), s.W, a);
    d := dist + v;
  }

  /** The extra bits fit the buffer; if they are not there, the machine has to wait as well. */
  lemma ExtraNeed(s: Inflater, m: CodesMode)
    requires FastState(s, m) && (m.AtLenExt? || m.AtDistExt?)
    ensures m.get < 16
    ensures s.bitk < m.get && s.availIn == 0 ==> Starved(s.S(), s.W, s.Limit(), s.abs)
  {
    hide Shl, Shr, Low, Rev, MaxLen, LenAt, IsTable, Next, Need, GoodCodes, Good,
      Buffer, Ring, Delivered, Peek, Stream;
    SilentStep(s.S(), s.W, s.abs);
    StepsIntro(s.S(), s.W, s.Limit(), s.abs);
  }
}
