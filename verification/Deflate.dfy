/** What a DEFLATE stream means: a deterministic machine over a bit stream and an unbounded
  * history, with no bit buffer, no window and no tables.
  *
  * The decoder proper works in a 32-bit buffer and a ring of bytes and can be interrupted
  * whenever input or output space runs out.  Each of its steps is one step of this machine.
  */
module Deflate {
  import opened Bits
  import opened Canonical
  import opened HuftTables
  import opened HuftLabels
  import opened HuftSpace
  import opened HuftBuild
  import opened InflateTrees

  /** Where the decoder is within a symbol.  `w` counts the bits of the symbol's code that
    * earlier tables have used up. */
  datatype Codes =
    | Start
    | Len(w: nat)
    | LenExt(len: nat, get: nat)
    | Dist(len: nat, w: nat)
    | DistExt(len: nat, dist: nat, get: nat)
    | Copy(len: nat, dist: nat)
    | Lit(lit: byte)
    | Wash
    | BadCode

  /** Where the decoder is within a block. */
  datatype Block =
    | Type
    | Lens
    | Stored(left: nat)
    | Table
    | BTree(table: nat, index: nat)
    | DTree(table: nat, index: nat, tree: Tree)
    | InCodes(lit: Tree, dist: Tree, codes: Codes)
    | Dry
    | Done
    | Bad

  /** `pos` is the next bit of the stream that is not part of finished work; `hist` is the
    * window's initial content followed by everything decoded; `blens` is the scratch area for
    * code lengths. */
  datatype State = State(pos: nat, hist: seq<byte>, last: bool, block: Block, blens: seq<nat>)

  /** Order of the bit length code lengths. */
  function Border(i: nat): (r: nat)
    requires i < 19
    ensures r < 19 && Unborder(r) == i
  {
    if i == 0 then 16 else if i == 1 then 17 else if i == 2 then 18 else if i == 3 then 0 else if i == 4 then 8 else
    if i == 5 then 7 else if i == 6 then 9 else if i == 7 then 6 else if i == 8 then 10 else if i == 9 then 5 else
    if i == 10 then 11 else if i == 11 then 4 else if i == 12 then 12 else if i == 13 then 3 else if i == 14 then 13 else
    if i == 15 then 2 else if i == 16 then 14 else if i == 17 then 1 else
    15
  }

  /** Where a bit length code's length comes in that order. */
  function Unborder(i: nat): nat
  {
    if i == 0 then 3 else if i == 1 then 17 else if i == 2 then 15 else if i == 3 then 13 else if i == 4 then 11 else
    if i == 5 then 9 else if i == 6 then 7 else if i == 7 then 5 else if i == 8 then 4 else if i == 9 then 6 else
    if i == 10 then 8 else if i == 11 then 10 else if i == 12 then 12 else if i == 13 then 14 else if i == 14 then 16 else
    if i == 15 then 18 else if i == 16 then 0 else if i == 17 then 1 else
    2
  }

  const BLENS_SIZE: nat := 258 + 31 + 31

  /** `n` bits of the stream from position `pos`, the first one least significant. */
  function Peek(S: nat, pos: nat, n: nat): (r: nat)
    ensures r < Pow2(n)
  {
    LowBound(Shr(S, pos), n);
    Low(Shr(S, pos), n)
  }

  function LiteralCount(table: nat): nat { 257 + table % 32 }

  function DistanceCount(table: nat): nat { 1 + table / 32 % 32 }

  /** More symbols than there are codes for. */
  predicate TooManySymbols(table: nat) {
    table % 32 > 29 || table / 32 % 32 > 29
  }

  predicate TableOK(table: nat) {
    table < Pow2(14) && table % 32 <= 29 && table / 32 % 32 <= 29
  }

  /** No more bits than this are looked up at once. */
  const MAX_WIDTH: nat := 9

  /** The trees decoded with: usable codes, each looked up with its own width. */
  ghost predicate GoodTree(tree: Tree) {
    && ValidLengths(tree.lens)
    && 0 < MaxLen(tree.lens) <= MAX_BITS
    && 1 <= tree.l <= MaxLen(tree.lens)
    && tree.l <= MAX_WIDTH && Shallow(tree)
    && (forall s :: 0 <= s < |tree.lens| ==> InAlphabet(tree.alphabet, s))
  }

  ghost predicate GoodCodes(lit: Tree, dist: Tree, c: Codes) {
    && GoodTree(lit) && lit.alphabet == LITERALS
    && dist.alphabet == DISTANCES
    && (|lit.lens| <= 257 || GoodTree(dist))
    && match c
       case Len(w) => w < MaxLen(lit.lens) && IsLevel(lit.l, w)
       case LenExt(_, _) => GoodTree(dist)
       case Dist(_, w) => GoodTree(dist) && w < MaxLen(dist.lens) && IsLevel(dist.l, w)
       case DistExt(_, dist, _) => dist > 0
       case Copy(_, dist) => dist > 0
       case _ => true
  }

  ghost predicate GoodBits(tree: Tree) {
    && |tree.lens| == 19 && (forall s :: 0 <= s < 19 ==> tree.lens[s] <= 7)
    && Decodable(tree.lens)
    && tree == MakeTree(tree.lens, BITS_ALPHABET, BITS_WIDTH)
    && tree.l == MaxLen(tree.lens) <= 7
  }

  /** What every reachable state satisfies, for a window of `W` bytes. */
  ghost predicate Good(W: nat, a: State) {
    && 0 < W <= |a.hist|
    && |a.blens| == BLENS_SIZE
    && match a.block
       case Stored(left) => left > 0
       case BTree(table, index) =>
         && TableOK(table) && index <= 19
         && forall i :: 0 <= i < index ==> a.blens[Border(i)] <= 7
       case DTree(table, index, tree) =>
         && TableOK(table) && GoodBits(tree)
         && index <= LiteralCount(table) + DistanceCount(table)
         && forall i :: 0 <= i < index ==> a.blens[i] <= MAX_BITS
       case InCodes(lit, dist, c) => GoodCodes(lit, dist, c)
       case _ => true
  }

  predicate Terminal(a: State) {
    a.block.Done? || a.block.Bad? || (a.block.InCodes? && a.block.codes.BadCode?)
  }

  /** The next byte boundary. */
  function RoundUp8(pos: nat): (r: nat)
    ensures r % 8 == 0 && pos <= r < pos + 8
  {
    (pos + 7) / 8 * 8
  }

  /** Distances beyond the window wrap around it. */
  function BackDistance(W: nat, dist: nat): (d: nat)
    requires W > 0
    ensures dist > 0 ==> 0 < d <= W
    decreases dist
  {
    if dist <= W then dist else BackDistance(W, dist - W)
  }

  /** After a block: the next one, or the end. */
  function AfterBlock(last: bool): Block {
    if last then Dry else Type
  }

  // ----- Symbols

  /** What a literal/length table entry says to do. */
  function LiteralAction(exop: nat, base: nat): Codes {
    if exop == 0 then Lit(base % 256)
    else if exop / 16 % 2 == 1 then LenExt(base, exop % 16)
    else if exop / 32 % 2 == 1 then Wash
    else BadCode
  }

  /** What a distance table entry says to do. */
  function DistanceAction(len: nat, exop: nat, base: nat): Codes {
    if exop / 16 % 2 == 1 then DistExt(len, base, exop % 16) else BadCode
  }

  /** Operation and value of the symbol at stream `x`. */
  function SymbolEntry(tree: Tree, x: nat): (nat, nat)
    requires MaxLen(tree.lens) > 0
    requires forall s :: 0 <= s < |tree.lens| ==> InAlphabet(tree.alphabet, s)
  {
    match SymbolAt(tree.lens, Pos(tree.lens, x))
    case Symbol(s) => (SymbolExop(tree.alphabet, s), SymbolBase(tree.alphabet, s))
    case NoSymbol => (EXOP_INVALID, 0)
  }

  /** The number of bits looked up from `x` at level `w`, those before included. */
  function Lookahead(tree: Tree, w: nat, x: nat): nat
    requires w < MaxLen(tree.lens)
  {
    w + TableBits(tree, w, Low(x, w))
  }

  /** Does the table at level `w` decide the symbol? */
  predicate Decided(tree: Tree, w: nat, x: nat)
    requires w < MaxLen(tree.lens)
  {
    LenAt(tree.lens, Pos(tree.lens, x)) <= Lookahead(tree, w, x)
  }

  function CodeBits(tree: Tree, x: nat): nat
    requires MaxLen(tree.lens) > 0
  {
    LenAt(tree.lens, Pos(tree.lens, x))
  }

  // ----- Code lengths

  /** The code length symbol at stream `x`.  A lone one-bit code stands for both bits. */
  function LengthSymbol(tree: Tree, x: nat): nat
    requires MaxLen(tree.lens) > 0
  {
    match SymbolAt(tree.lens, Pos(tree.lens, x))
    case Symbol(s) => s
    case NoSymbol => if LoneCode(tree.lens) then Nth(tree.lens, 1, 0) else 0
  }

  function RepeatBits(c: nat): nat { if c < 16 then 0 else if c == 18 then 7 else if c == 17 then 3 else 2 }

  function RepeatBase(c: nat): nat { if c == 18 then 11 else 3 }

  /** `s` with `n` copies of `c` from index `i` on. */
  function Repeat(s: seq<nat>, i: nat, n: nat, c: nat): (r: seq<nat>)
    requires i + n <= |s|
    ensures |r| == |s|
    ensures forall d :: 0 <= d < |s| ==> r[d] == if i <= d < i + n then c else s[d]
  {
    s[..i] + seq(n, _ => c) + s[i + n..]
  }

  /** The lengths not transmitted are zero. */
  function ZeroRest(blens: seq<nat>, index: nat): (r: seq<nat>)
    requires |blens| == BLENS_SIZE && index <= 19
    ensures |r| == |blens|
    ensures forall i :: 0 <= i < index ==> r[Border(i)] == blens[Border(i)]
    ensures forall i :: index <= i < 19 ==> r[Border(i)] == 0
    ensures forall d :: 19 <= d < |blens| ==> r[d] == blens[d]
    decreases 19 - index
  {
    if index == 19 then blens else ZeroRest(blens[Border(index) := 0], index + 1)
  }

  // ----- Steps

  function CodesLookahead(S: nat, pos: nat, lit: Tree, dist: Tree, c: Codes): nat
    requires c.Len? ==> c.w < MaxLen(lit.lens)
    requires c.Dist? ==> c.w < MaxLen(dist.lens)
  {
    match c
    case Len(w) => Lookahead(lit, w, Shr(S, pos))
    case LenExt(_, get) => get
    case Dist(_, w) => Lookahead(dist, w, Shr(S, pos))
    case DistExt(_, _, get) => get
    case _ => 0
  }

  /** The number of bits that must be there for the next step. */
  function Need(S: nat, W: nat, a: State): nat
    requires Good(W, a)
  {
    match a.block
    case Type => 3
    case Lens => 32
    case Stored(_) => 8
    case Table => 14
    case BTree(table, index) => if index < 4 + table / 1024 then 3 else 0
    case DTree(table, index, tree) =>
      if index < LiteralCount(table) + DistanceCount(table) then
        var x := Shr(S, a.pos);
        var need := CodeBits(tree, x) + RepeatBits(LengthSymbol(tree, x));
        if need > tree.l then need else tree.l
      else 0
    case InCodes(lit, dist, c) => CodesLookahead(S, a.pos, lit, dist, c)
    case _ => 0
  }

  /** The step puts a byte into the output. */
  predicate Writes(a: State) {
    match a.block
    case Stored(_) => true
    case InCodes(_, _, c) => c.Lit? || (c.Copy? && c.len > 0)
    case _ => false
  }

  function NextType(S: nat, a: State): State {
    var t := Peek(S, a.pos, 3);
    var b := a.(last := t % 2 == 1);
    if t / 2 == 0 then b.(pos := RoundUp8(a.pos + 3), block := Lens)
    else if t / 2 == 1 then
      b.(pos := a.pos + 3, block := InCodes(FixedLiteralTree(), FixedDistanceTree(), Start))
    else if t / 2 == 2 then b.(pos := a.pos + 3, block := Table)
    else b.(pos := a.pos + 3, block := Bad)
  }

  function NextLens(S: nat, a: State): State {
    var v := Peek(S, a.pos, 32);
    if Shr(v, 16) != 0xffff - Low(v, 16) then a.(block := Bad)
    else a.(pos := a.pos + 32,
            block := if Low(v, 16) != 0 then Stored(Low(v, 16)) else AfterBlock(a.last))
  }

  function NextStored(S: nat, a: State): State
    requires a.block.Stored?
  {
    SmallByte();
    a.(pos := a.pos + 8,
       hist := a.hist + [Peek(S, a.pos, 8)],
       block := if a.block.left > 1 then Stored(a.block.left - 1) else AfterBlock(a.last))
  }

  lemma SmallByte()
    ensures Pow2(8) == 256
  {
  }

  function NextTable(S: nat, a: State): State {
    var t := Peek(S, a.pos, 14);
    if TooManySymbols(t) then a.(block := Bad)
    else a.(pos := a.pos + 14, block := BTree(t, 0))
  }

  function NextBTree(S: nat, W: nat, a: State): State
    requires Good(W, a) && a.block.BTree?
  {
    var BTree(table, index) := a.block;
    if index < 4 + table / 1024 then
      SmallTable(table);
      a.(pos := a.pos + 3,
         blens := a.blens[Border(index) := Peek(S, a.pos, 3)],
         block := BTree(table, index + 1))
    else
      var blens := ZeroRest(a.blens, index);
      a.(blens := blens,
         block := if Decodable(blens[..19]) then DTree(table, 0, MakeTree(blens[..19], BITS_ALPHABET, BITS_WIDTH))
                  else Bad)
  }

  lemma SmallTable(table: nat)
    requires table < Pow2(14)
    ensures table / 1024 < 16 && Pow2(3) == 8
  {
  }

  function NextDTree(S: nat, W: nat, a: State): State
    requires Good(W, a) && a.block.DTree?
  {
    var DTree(table, index, tree) := a.block;
    var total := LiteralCount(table) + DistanceCount(table);
    if index < total then
      var x := Shr(S, a.pos);
      var k, c := CodeBits(tree, x), LengthSymbol(tree, x);
      if c < 16 then
        a.(pos := a.pos + k, blens := a.blens[index := c], block := DTree(table, index + 1, tree))
      else
        var j := RepeatBase(c) + Peek(S, a.pos + k, RepeatBits(c));
        var b := a.(pos := a.pos + k + RepeatBits(c));
        if index + j > total || (c == 16 && index < 1) then b.(block := Bad)
        else b.(blens := Repeat(a.blens, index, j, if c == 16 then a.blens[index - 1] else 0),
                block := DTree(table, index + j, tree))
    else
      var lit := a.blens[..LiteralCount(table)];
      var dist := a.blens[LiteralCount(table)..total];
      if DynamicUsable(lit, dist) then
        a.(block := InCodes(MakeTree(lit, LITERALS, LITERAL_WIDTH),
                            if MaxLen(dist) == 0 then Tree(dist, 0, DISTANCES)
                            else MakeTree(dist, DISTANCES, DISTANCE_WIDTH),
                            Start))
      else a.(block := Bad)
  }

  /** The position and mode after a step within a symbol, output aside. */
  function NextSymbol(S: nat, pos: nat, lit: Tree, dist: Tree, c: Codes): (nat, Codes)
    requires GoodCodes(lit, dist, c)
  {
    var x := Shr(S, pos);
    match c
    case Start => (pos, Len(0))
    case Len(w) =>
      if Decided(lit, w, x) then
        var (exop, base) := SymbolEntry(lit, x);
        (pos + CodeBits(lit, x), LiteralAction(exop, base))
      else (pos, Len(w + lit.l))
    case LenExt(len, get) => (pos + get, Dist(len + Peek(S, pos, get), 0))
    case Dist(len, w) =>
      if Decided(dist, w, x) then
        var (exop, base) := SymbolEntry(dist, x);
        (pos + CodeBits(dist, x), DistanceAction(len, exop, base))
      else (pos, Dist(len, w + dist.l))
    case DistExt(len, d, get) => (pos + get, Copy(len, d + Peek(S, pos, get)))
    case Copy(len, d) => (pos, if len > 0 then Copy(len - 1, d) else Start)
    case Lit(_) => (pos, Start)
    case _ => (pos, c)
  }

  function NextCodes(S: nat, W: nat, a: State): State
    requires Good(W, a) && a.block.InCodes?
  {
    var InCodes(lit, dist, c) := a.block;
    if c.Wash? then a.(block := AfterBlock(a.last))
    else
      var (pos, c') := NextSymbol(S, a.pos, lit, dist, c);
      a.(pos := pos,
         hist := if c.Lit? then a.hist + [c.lit]
                 else if c.Copy? && c.len > 0 then a.hist + [a.hist[|a.hist| - BackDistance(W, c.dist)]]
                 else a.hist,
         block := InCodes(lit, dist, c'))
  }

  function Next(S: nat, W: nat, a: State): State
    requires Good(W, a)
  {
    match a.block
    case Type => NextType(S, a)
    case Lens => NextLens(S, a)
    case Stored(_) => NextStored(S, a)
    case Table => NextTable(S, a)
    case BTree(_, _) => NextBTree(S, W, a)
    case DTree(_, _, _) => NextDTree(S, W, a)
    case InCodes(_, _, _) => NextCodes(S, W, a)
    case Dry => a.(block := Done)
    case Done => a
    case Bad => a
  }
}
