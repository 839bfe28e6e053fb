/** Runs of the DEFLATE machine: they stay good, make progress, only ever extend the history,
  * and do not depend on how the input is handed out. */
module DeflateRun {
  import opened Bits
  import opened Canonical
  import opened HuftTables
  import opened HuftLabels
  import opened HuftSpace
  import opened HuftBuild
  import opened InflateTrees
  import opened Deflate

  // ----- Good states stay good

  lemma UnborderOnto(s: nat)
    requires s < 19
    ensures Unborder(s) < 19 && Border(Unborder(s)) == s
  {
  }

  lemma FixedGood(c: Codes)
    requires c.Start?
    ensures GoodCodes(FixedLiteralTree(), FixedDistanceTree(), c)
  {
    hide MaxLen, OverSubscribed, Incomplete, Shallow;
    FixedLiteralUsable();
    FixedDistanceUsable();
    SingleTableShallow(FixedLiteralTree());
    SingleTableShallow(FixedDistanceTree());
  }

  lemma MadeTreeGood(lens: Lengths, al: Alphabet, m: nat, used: nat)
    requires ValidLengths(lens) && Usable(lens, al, m, used)
    requires 0 < m <= MAX_WIDTH && |lens| < Pow2(m + 1)
    requires forall s :: 0 <= s < |lens| ==> InAlphabet(al, s)
    ensures GoodTree(MakeTree(lens, al, m))
  {
    hide MaxLen, OverSubscribed, Incomplete, Shallow, Shl, MinLenFrom, Space;
    SmallMax(lens, MAX_BITS);
    UsableShallow(lens, al, m);
    UsableWidth(lens, m);
  }

  lemma BTreeGood(S: nat, W: nat, a: State)
    requires Good(W, a) && a.block.BTree?
    ensures Good(W, NextBTree(S, W, a))
  {
    hide Shl, Shr, Low, MaxLen, OverSubscribed, Incomplete, Space, MinLenFrom, Border, Unborder;
    var BTree(table, index) := a.block;
    SmallTable(table);
    if index < 4 + table / 1024 {
      var v := Peek(S, a.pos, 3);
      forall i | 0 <= i < index + 1
        ensures a.blens[Border(index) := v][Border(i)] <= 7
      {
        assert Unborder(Border(i)) == i && Unborder(Border(index)) == index;
      }
    } else {
      var blens := ZeroRest(a.blens, index);
      var lens := blens[..19];
      forall s | 0 <= s < 19 ensures lens[s] <= 7 {
        UnborderOnto(s);
        assert blens[Border(Unborder(s))] <= 7;
      }
      SmallMax(lens, 7);
    }
  }

  lemma DTreeGood(S: nat, W: nat, a: State)
    requires Good(W, a) && a.block.DTree?
    ensures Good(W, NextDTree(S, W, a))
  {
    hide Shl, Shr, Low, MaxLen, OverSubscribed, Incomplete, Space, MinLenFrom, LenAt, SymbolAt, Peek, GoodBits, LengthSymbol, Shallow;
    var DTree(table, index, tree) := a.block;
    var total := LiteralCount(table) + DistanceCount(table);
    if index == total {
      var lit := a.blens[..LiteralCount(table)];
      var dist := a.blens[LiteralCount(table)..total];
      if DynamicUsable(lit, dist) {
        SmallPowers();
        MadeTreeGood(lit, LITERALS, LITERAL_WIDTH, 0);
        if MaxLen(dist) > 0 {
          MadeTreeGood(dist, DISTANCES, DISTANCE_WIDTH, Space(MakeTree(lit, LITERALS, LITERAL_WIDTH)));
        }
      }
    }
  }

  /** A symbol not decided at one level is decided at a later one. */
  lemma UndecidedLevel(tree: Tree, w: nat, x: nat)
    requires w < MaxLen(tree.lens) && !Decided(tree, w, x)
    ensures w + tree.l < MaxLen(tree.lens)
  {
    hide Shl, Rev, Low, MaxLen, LenAt, TableBits;
    TableCoversX(tree, x, w);
  }

  lemma TableCoversX(tree: Tree, x: nat, w: nat)
    requires w < MaxLen(tree.lens)
    ensures var k := LenAt(tree.lens, Pos(tree.lens, x));
            k <= w + tree.l ==> k <= w + TableBits(tree, w, Low(x, w))
  {
    hide Shl, Shr, Rev, Low, MaxLen, LenAt;
    var g := MaxLen(tree.lens);
    PrefixPos(tree.lens, x, w);
    LenAtMono(tree.lens, Rev(g, Low(x, w)), Pos(tree.lens, x));
    LenAtMono(tree.lens, Pos(tree.lens, x), Rev(g, Low(x, w)) + Pow2(g - w) - 1);
  }

  lemma LiteralGood(lit: Tree, dist: Tree, x: nat)
    requires GoodCodes(lit, dist, Start)
    ensures var (exop, base) := SymbolEntry(lit, x);
            GoodCodes(lit, dist, LiteralAction(exop, base))
  {
    hide Shl, Shr, Rev, Low, MaxLen, LenAt, SymbolAt;
    match SymbolAt(lit.lens, Pos(lit.lens, x)) {
      case Symbol(s) =>
        assert InAlphabet(lit.alphabet, s);
      case NoSymbol =>
    }
  }

  lemma DistanceGood(lit: Tree, dist: Tree, len: nat, x: nat)
    requires GoodCodes(lit, dist, Start) && GoodTree(dist)
    ensures var (exop, base) := SymbolEntry(dist, x);
            GoodCodes(lit, dist, DistanceAction(len, exop, base))
  {
    hide Shl, Shr, Rev, Low, MaxLen, LenAt, SymbolAt;
    match SymbolAt(dist.lens, Pos(dist.lens, x)) {
      case Symbol(s) =>
        assert InAlphabet(dist.alphabet, s);
        assert forall i :: 0 <= i < |CPDIST| ==> CPDIST[i] > 0;
        assert SymbolBase(dist.alphabet, s) == CPDIST[s];
      case NoSymbol =>
    }
  }

  lemma CodesGood(S: nat, W: nat, a: State)
    requires Good(W, a) && a.block.InCodes?
    ensures Good(W, NextCodes(S, W, a))
  {
    hide Shl, Shr, Rev, Low, MaxLen, LenAt, SymbolAt, LiteralAction, DistanceAction, SymbolEntry, Decided, Peek, BackDistance;
    var InCodes(lit, dist, c) := a.block;
    var x := Shr(S, a.pos);
    match c {
      case Len(w) =>
        if Decided(lit, w, x) { LiteralGood(lit, dist, x); } else { UndecidedLevel(lit, w, x); }
      case Dist(len, w) =>
        if Decided(dist, w, x) { DistanceGood(lit, dist, len, x); } else { UndecidedLevel(dist, w, x); }
      case _ =>
    }
  }

  lemma NextGood(S: nat, W: nat, a: State)
    requires Good(W, a)
    ensures Good(W, Next(S, W, a))
  {
    hide GoodCodes, GoodBits, Peek, NextBTree, NextDTree, NextCodes;
    match a.block {
      case Type => FixedGood(Start);
      case BTree(_, _) => BTreeGood(S, W, a);
      case DTree(_, _, _) => DTreeGood(S, W, a);
      case InCodes(_, _, _) => CodesGood(S, W, a);
      case _ =>
    }
  }

  // ----- Progress

  /** Steps that use no bits go down in phase, or within a phase in the remainder. */
  function Phase(a: State): nat {
    match a.block
    case Type => 1
    case Lens => 1
    case Stored(_) => 1
    case Table => 1
    case BTree(_, _) => 9
    case DTree(_, _, _) => 8
    case InCodes(_, _, c) =>
      (match c
       case Start => 2
       case Len(_) => 1
       case LenExt(_, _) => 7
       case Dist(_, _) => 6
       case DistExt(_, _, _) => 5
       case Copy(_, _) => 4
       case Lit(_) => 3
       case Wash => 3
       case BadCode => 0)
    case Dry => 1
    case Done => 0
    case Bad => 0
  }

  function Remainder(a: State): nat {
    match a.block
    case InCodes(lit, dist, c) =>
      (match c
       case Len(w) => if w < MaxLen(lit.lens) then MaxLen(lit.lens) - w else 0
       case Dist(_, w) => if w < MaxLen(dist.lens) then MaxLen(dist.lens) - w else 0
       case Copy(len, _) => len
       case _ => 0)
    case _ => 0
  }

  /** Every step that is not final uses up bits, or goes down in phase. */
  lemma NextProgress(S: nat, W: nat, a: State)
    requires Good(W, a) && !Terminal(a)
    ensures var b := Next(S, W, a);
            a.pos < b.pos || (a.pos == b.pos && (Phase(b) < Phase(a)
                                                 || (Phase(b) == Phase(a) && Remainder(b) < Remainder(a))))
  {
    hide Shl, Shr, Rev, Low, MaxLen, SymbolAt, SymbolEntry, Decided, Peek, BackDistance, DynamicUsable,
      Decodable, ZeroRest, Repeat, FixedLiteralTree, FixedDistanceTree, GoodBits, LengthSymbol;
    match a.block {
      case InCodes(lit, dist, c) =>
        var x := Shr(S, a.pos);
        if c.Len? && !Decided(lit, c.w, x) { UndecidedLevel(lit, c.w, x); }
        if c.Dist? && !Decided(dist, c.w, x) { UndecidedLevel(dist, c.w, x); }
      case _ =>
    }
  }

  /** The bits a step uses are among those it needs. */
  lemma NextWithinNeed(S: nat, W: nat, a: State)
    requires Good(W, a)
    ensures var b := Next(S, W, a);
            a.pos <= b.pos && (a.block.Type? || b.pos <= a.pos + Need(S, W, a))
  {
    hide Shl, Shr, Rev, Low, MaxLen, SymbolAt, SymbolEntry, Peek, BackDistance, DynamicUsable,
      Decodable, ZeroRest, Repeat, FixedLiteralTree, FixedDistanceTree, GoodBits, LengthSymbol, TableBits;
  }

  /** A step appends at most one byte to the history, and does so exactly when it writes. */
  lemma NextHist(S: nat, W: nat, a: State)
    requires Good(W, a)
    ensures var b := Next(S, W, a);
            && a.hist <= b.hist
            && |b.hist| == |a.hist| + (if Writes(a) then 1 else 0)
  {
    hide Shl, Shr, Rev, Low, MaxLen, SymbolAt, SymbolEntry, Peek, BackDistance, DynamicUsable, Decided,
      Decodable, ZeroRest, Repeat, FixedLiteralTree, FixedDistanceTree, GoodBits, GoodCodes, LengthSymbol;
  }

  // ----- Runs with the first `limit` bytes of input

  /** The step can be taken with `limit` bytes of input. */
  predicate Enabled(S: nat, W: nat, limit: nat, a: State)
    requires Good(W, a)
  {
    !Terminal(a) && a.pos + Need(S, W, a) <= 8 * limit
  }

  function Run(S: nat, W: nat, limit: nat, a: State, n: nat): (b: State)
    requires Good(W, a)
    ensures Good(W, b)
    decreases n
  {
    if n == 0 || !Enabled(S, W, limit, a) then a
    else
      NextGood(S, W, a);
      Run(S, W, limit, Next(S, W, a), n - 1)
  }

  ghost predicate Reaches(S: nat, W: nat, limit: nat, a: State, b: State)
    requires Good(W, a)
  {
    exists n: nat :: Run(S, W, limit, a, n) == b
  }

  lemma {:induction false} RunAdd(S: nat, W: nat, limit: nat, a: State, m: nat, n: nat)
    requires Good(W, a)
    ensures Run(S, W, limit, Run(S, W, limit, a, m), n) == Run(S, W, limit, a, m + n)
    decreases m
  {
    hide Good, Next, Enabled;
    if m > 0 && Enabled(S, W, limit, a) {
      NextGood(S, W, a);
      RunAdd(S, W, limit, Next(S, W, a), m - 1, n);
    } else if !Enabled(S, W, limit, a) {
      assert Run(S, W, limit, a, n) == a == Run(S, W, limit, a, m + n);
    }
  }

  lemma ReachesRefl(S: nat, W: nat, limit: nat, a: State)
    requires Good(W, a)
    ensures Reaches(S, W, limit, a, a)
  {
    hide Good, Next, Enabled;
    assert Run(S, W, limit, a, 0) == a;
  }

  lemma ReachesNext(S: nat, W: nat, limit: nat, a: State, b: State)
    requires Good(W, a) && Reaches(S, W, limit, a, b)
    ensures Good(W, b)
    ensures Enabled(S, W, limit, b) ==> Reaches(S, W, limit, a, Next(S, W, b))
  {
    hide Good, Next, Enabled;
    var n: nat :| Run(S, W, limit, a, n) == b;
    if Enabled(S, W, limit, b) {
      RunAdd(S, W, limit, a, n, 1);
      NextGood(S, W, b);
      assert Run(S, W, limit, Next(S, W, b), 0) == Next(S, W, b);
      assert Run(S, W, limit, b, 1) == Next(S, W, b);
    }
  }

  lemma ReachesTrans(S: nat, W: nat, limit: nat, a: State, b: State, c: State)
    requires Good(W, a) && Reaches(S, W, limit, a, b) && Good(W, b) && Reaches(S, W, limit, b, c)
    ensures Reaches(S, W, limit, a, c)
  {
    hide Good, Next, Enabled;
    var m: nat :| Run(S, W, limit, a, m) == b;
    var n: nat :| Run(S, W, limit, b, n) == c;
    RunAdd(S, W, limit, a, m, n);
  }

  /** More input does not change the way, only how far it goes. */
  lemma {:induction false} RunMoreInput(S: nat, W: nat, limit: nat, limit': nat, a: State, n: nat) returns (m: nat)
    requires Good(W, a) && limit <= limit'
    ensures Run(S, W, limit', a, m) == Run(S, W, limit, a, n)
    decreases n
  {
    hide Good, Next, Need;
    if n == 0 || !Enabled(S, W, limit, a) {
      m := 0;
    } else {
      NextGood(S, W, a);
      m := RunMoreInput(S, W, limit, limit', Next(S, W, a), n - 1);
      m := m + 1;
    }
  }

  lemma ReachesMoreInput(S: nat, W: nat, limit: nat, limit': nat, a: State, b: State)
    requires Good(W, a) && limit <= limit' && Reaches(S, W, limit, a, b)
    ensures Reaches(S, W, limit', a, b)
  {
    hide Good, Next, Enabled;
    var n: nat :| Run(S, W, limit, a, n) == b;
    var m := RunMoreInput(S, W, limit, limit', a, n);
  }

  lemma {:induction false} RunHist(S: nat, W: nat, limit: nat, a: State, n: nat)
    requires Good(W, a)
    ensures a.hist <= Run(S, W, limit, a, n).hist && a.pos <= Run(S, W, limit, a, n).pos
    decreases n
  {
    hide Good, Next, Enabled;
    if n > 0 && Enabled(S, W, limit, a) {
      NextGood(S, W, a);
      NextHist(S, W, a);
      NextWithinNeed(S, W, a);
      RunHist(S, W, limit, Next(S, W, a), n - 1);
    }
  }

  /** Two states on the same run: one extends the other. */
  lemma ReachedComparable(S: nat, W: nat, limit: nat, a: State, b: State, c: State)
    requires Good(W, a) && Reaches(S, W, limit, a, b) && Reaches(S, W, limit, a, c)
    ensures Good(W, b) && Good(W, c)
    ensures Reaches(S, W, limit, b, c) || Reaches(S, W, limit, c, b)
    ensures b.hist <= c.hist || c.hist <= b.hist
  {
    hide Good, Next, Enabled;
    var m: nat :| Run(S, W, limit, a, m) == b;
    var n: nat :| Run(S, W, limit, a, n) == c;
    if m <= n {
      RunAdd(S, W, limit, a, m, n - m);
      RunHist(S, W, limit, b, n - m);
    } else {
      RunAdd(S, W, limit, a, n, m - n);
      RunHist(S, W, limit, c, m - n);
    }
  }

  /** A run ends in one state only. */
  lemma StuckUnique(S: nat, W: nat, limit: nat, a: State, b: State, c: State)
    requires Good(W, a) && Reaches(S, W, limit, a, b) && Reaches(S, W, limit, a, c)
    requires Good(W, b) && Good(W, c)
    requires !Enabled(S, W, limit, b) && !Enabled(S, W, limit, c)
    ensures b == c
  {
    hide Good, Next, Enabled;
    var m: nat :| Run(S, W, limit, a, m) == b;
    var n: nat :| Run(S, W, limit, a, n) == c;
    RunAdd(S, W, limit, a, m, n);
    RunAdd(S, W, limit, a, n, m);
    RunStuck(S, W, limit, b, n);
    RunStuck(S, W, limit, c, m);
  }

  lemma RunStuck(S: nat, W: nat, limit: nat, a: State, n: nat)
    requires Good(W, a) && !Enabled(S, W, limit, a)
    ensures Run(S, W, limit, a, n) == a
  {
    hide Good, Next, Enabled;
  }
}
