/** The table space that the callers' codes can take at most: whatever code they accept, `MANY` entries
  * are enough for both tables of a block.
  *
  * Tables are counted level by level.  The codes lie in the order of their lengths.  So of the tables of
  * a level all but a few hold codes of one length only, and have no more entries than codes; and there is
  * at most one other table for each longest length.
  */
module HuftCapacity {
  import opened Bits
  import opened Canonical
  import opened HuftTables
  import opened HuftLabels
  import opened HuftSpace
  import opened HuftBuild
  import opened InflateTrees

  // ----- Multiples of powers of two

  lemma Multiple(x: nat, m: nat, n: nat)
    requires m <= n && Low(x, n) == 0
    ensures Low(x, m) == 0 && Low(x + Pow2(n), n) == 0 && x == Shl(Shr(x, n), n)
  {
    hide Shl, Shr, Low;
    LowLow(x, m, n);
    LowOfZero(m);
    Split(x, n);
    ShlAdd(Shr(x, n), 1, n);
    Unsplit(0, Shr(x, n) + 1, n);
  }

  lemma LowOfZero(n: nat)
    ensures Low(0, n) == 0
  {
  }

  lemma MultipleGap(x: nat, y: nat, n: nat)
    requires Low(x, n) == 0 && Low(y, n) == 0 && x < y
    ensures x + Pow2(n) <= y
  {
    hide Shl, Shr, Low;
    Multiple(x, n, n);
    Multiple(y, n, n);
    if Shr(x, n) >= Shr(y, n) { ShlMono(Shr(y, n), Shr(x, n), n); }
    ShlMono(Shr(x, n), Shr(y, n), n);
  }

  lemma PowerMultiple(g: nat, n: nat)
    requires n <= g
    ensures Low(Pow2(g), n) == 0
  {
    hide Shl, Low;
    Pow2Add(g - n, n);
    Unsplit(0, Pow2(g - n), n);
  }

  /** The position at which a prefix of `w` bits starts. */
  lemma PrefixStart(g: nat, w: nat, P: nat)
    requires w <= g && P < Pow2(g)
    ensures Rev(g, P) < Pow2(w) <==> Low(P, g - w) == 0
  {
    hide Shl, Shr, Low, Rev;
    var d := g - w;
    RevPrefix(d, w, P);
    ShrQuotient(Rev(g, P), w, 0);
    ShlZero(w);
    RevInjective(d, P, 0);
    RevZero(d);
    LowOfZero(d);
  }

  // ----- Stepping through the codes

  /** A code starts at position `P`. */
  ghost predicate Starts(lens: Lengths, P: nat)
    requires MaxLen(lens) > 0
  {
    P <= Pow2(MaxLen(lens)) && (P < Pow2(MaxLen(lens)) ==> Low(P, MaxLen(lens) - LenAt(lens, P)) == 0)
  }

  lemma NextStarts(lens: Lengths, P: nat)
    requires MaxLen(lens) > 0 && Starts(lens, P) && P < Pow2(MaxLen(lens))
    ensures var n := MaxLen(lens) - LenAt(lens, P);
            Starts(lens, P + Pow2(n)) && Low(P + Pow2(n), n) == 0
  {
    hide Shl, Low, MaxLen, LenAt;
    var g, k := MaxLen(lens), LenAt(lens, P);
    PowerMultiple(g, g - k);
    MultipleGap(P, Pow2(g), g - k);
    Multiple(P, g - k, g - k);
    var Q := P + Pow2(g - k);
    LenAtMono(lens, P, Q);
    Multiple(Q, g - LenAt(lens, Q), g - k);
  }

  /** The number of codes from position `P` on. */
  function CodesFrom(lens: Lengths, P: nat): nat
    requires MaxLen(lens) > 0
    decreases Pow2(MaxLen(lens)) - P
  {
    var g := MaxLen(lens);
    if P >= Pow2(g) then 0 else 1 + CodesFrom(lens, P + Pow2(g - LenAt(lens, P)))
  }

  /** The codes of one length, from rank `m` on. */
  lemma {:induction false} CodesOfLength(lens: Lengths, k: nat, m: nat)
    requires 1 <= k <= MaxLen(lens) && m <= Count(lens, k)
    requires End(lens, MaxLen(lens), MaxLen(lens)) == Pow2(MaxLen(lens))
    ensures var g := MaxLen(lens);
            var P := End(lens, g, k - 1) + Shl(m, g - k);
            P >= 0 && CodesFrom(lens, P) == Count(lens, k) - m + CodesFrom(lens, End(lens, g, k))
    decreases Count(lens, k) - m
  {
    hide Shl, MaxLen, LenAt, End, Count;
    var g := MaxLen(lens);
    var P := End(lens, g, k - 1) + Shl(m, g - k);
    EndNext(lens, g, k);
    ShlMono(0, m, g - k);
    ShlZero(g - k);
    if m < Count(lens, k) {
      ShlMono(m, Count(lens, k), g - k);
      EndMono(lens, g, k, g);
      LenAtUnique(lens, P, k);
      ShlAdd(m, 1, g - k);
      CodesOfLength(lens, k, m + 1);
    }
  }

  lemma EndNext(lens: Lengths, g: nat, k: nat)
    requires 1 <= k <= g
    ensures End(lens, g, k) == End(lens, g, k - 1) + Shl(Count(lens, k), g - k)
  {
  }

  /** There are no more codes than symbols. */
  lemma {:induction false} CodesFromEnd(lens: Lengths, k: nat)
    requires 1 <= k <= MaxLen(lens) + 1 && MaxLen(lens) > 0
    requires End(lens, MaxLen(lens), MaxLen(lens)) == Pow2(MaxLen(lens))
    ensures CodesFrom(lens, End(lens, MaxLen(lens), k - 1)) == Offset(lens, MaxLen(lens) + 1) - Offset(lens, k)
    decreases MaxLen(lens) + 1 - k
  {
    hide Shl, MaxLen, LenAt, End, Count;
    var g := MaxLen(lens);
    if k <= g {
      CodesOfLength(lens, k, 0);
      ShlZero(g - k);
      CodesFromEnd(lens, k + 1);
    }
  }

  lemma CodesBound(lens: Lengths)
    requires MaxLen(lens) > 0 && End(lens, MaxLen(lens), MaxLen(lens)) == Pow2(MaxLen(lens))
    ensures CodesFrom(lens, 0) <= |lens|
  {
    hide MaxLen, LenAt, Count, CodesFrom;
    CodesFromEnd(lens, 1);
    OffsetTotal(lens, MaxLen(lens) + 1);
  }

  // ----- The tables of one level

  /** The table of level `w` that is made just before the code at position `P`, if any. */
  function MadeAt(tree: Tree, w: nat, P: nat): nat
    requires MaxLen(tree.lens) > 0
  {
    var g := MaxLen(tree.lens);
    if w < LenAt(tree.lens, P) && Rev(g, P) < Pow2(w) then Pow2(TableBits(tree, w, Rev(g, P))) else 0
  }

  /** The entries of the tables of level `w` made from position `P` on. */
  function LevelTables(tree: Tree, w: nat, P: nat): nat
    requires MaxLen(tree.lens) > 0
    decreases Pow2(MaxLen(tree.lens)) - P
  {
    var g := MaxLen(tree.lens);
    if P >= Pow2(g) then 0
    else MadeAt(tree, w, P) + LevelTables(tree, w, P + Pow2(g - LenAt(tree.lens, P)))
  }

  /** No code is so long that it has a fourth level. */
  lemma LevelsAt(tree: Tree, P: nat)
    requires MaxLen(tree.lens) > 0 && 0 < tree.l && MaxLen(tree.lens) <= 3 * tree.l && P < Pow2(MaxLen(tree.lens))
    ensures var i, k := Rev(MaxLen(tree.lens), P), LenAt(tree.lens, P);
            LevelSpace(tree, i, k, FirstLevel(tree, i, 0))
            == MadeAt(tree, 0, P) + MadeAt(tree, tree.l, P) + MadeAt(tree, 2 * tree.l, P)
  {
    hide Shl, MaxLen, LenAt, TableBits, Rev, LevelSpace, FirstLevel;
    var g, l := MaxLen(tree.lens), tree.l;
    var i, k := Rev(g, P), LenAt(tree.lens, P);
    Pow2Mono(0, l);
    Pow2Mono(l, 2 * l);
    LevelIs(tree, i, k, 0);
    LevelIs(tree, i, k, l);
    LevelIs(tree, i, k, 2 * l);
    LevelIs(tree, i, k, 3 * l);
  }

  lemma LevelIs(tree: Tree, i: nat, k: nat, w: nat)
    ensures LevelSpace(tree, i, k, w) == if w >= k || w >= MaxLen(tree.lens) || tree.l == 0 then 0
                                         else Pow2(TableBits(tree, w, i)) + LevelSpace(tree, i, k, w + tree.l)
    ensures FirstLevel(tree, i, w) == if w >= MaxLen(tree.lens) || tree.l == 0 || i < Pow2(w) then w
                                      else FirstLevel(tree, i, w + tree.l)
  {
    hide Shl, MaxLen, TableBits;
  }

  lemma {:induction false} SpaceByLevels(tree: Tree, P: nat)
    requires MaxLen(tree.lens) > 0 && 0 < tree.l && MaxLen(tree.lens) <= 3 * tree.l
    ensures SpaceFrom(tree, P) == LevelTables(tree, 0, P) + LevelTables(tree, tree.l, P) + LevelTables(tree, 2 * tree.l, P)
    decreases Pow2(MaxLen(tree.lens)) - P
  {
    hide Shl, MaxLen, LenAt, Rev, LevelSpace, FirstLevel, MadeAt;
    if P < Pow2(MaxLen(tree.lens)) {
      LevelsAt(tree, P);
      SpaceByLevels(tree, P + Pow2(MaxLen(tree.lens) - LenAt(tree.lens, P)));
    }
  }

  /** Within the interval of a table that ends at `Q` no other table of its level is made; and if all codes
    * from `P` up to `Q` are equally long, they can be counted. */
  lemma {:induction false} InsideTable(tree: Tree, w: nat, P: nat, Q: nat)
    requires MaxLen(tree.lens) > 0 && w < MaxLen(tree.lens) && Starts(tree.lens, P)
    requires Q <= Pow2(MaxLen(tree.lens)) && Low(Q, MaxLen(tree.lens) - w) == 0
    requires Q < P + Pow2(MaxLen(tree.lens) - w) && P <= Q && (P < Q ==> w < LenAt(tree.lens, P))
    ensures Starts(tree.lens, Q)
    ensures LevelTables(tree, w, P) == LevelTables(tree, w, Q)
    ensures CodesFrom(tree.lens, P) >= CodesFrom(tree.lens, Q)
    ensures P < Q && LenAt(tree.lens, Q - 1) == LenAt(tree.lens, P) ==>
              Q - P == Shl(CodesFrom(tree.lens, P) - CodesFrom(tree.lens, Q), MaxLen(tree.lens) - LenAt(tree.lens, P))
    decreases Q - P
  {
    hide Shl, Low, MaxLen, LenAt, Rev, TableBits, CodesFrom, LevelTables, MadeAt;
    var g, lens := MaxLen(tree.lens), tree.lens;
    if P < Q {
      var k := LenAt(lens, P);
      NextStarts(lens, P);
      Multiple(Q, g - k, g - w);
      MultipleGap(P, Q, g - k);
      if Low(P, g - w) == 0 { MultipleGap(P, Q, g - w); }
      PrefixStart(g, w, P);
      NoneMade(tree, w, P);
      CodesNext(lens, P);
      TablesNext(tree, w, P);
      var P' := P + Pow2(g - k);
      LenAtMono(lens, P, P');
      if P' < Q { LenAtMono(lens, P', Q - 1); }
      InsideTable(tree, w, P', Q);
      ShlAdd(CodesFrom(lens, P') - CodesFrom(lens, Q), 1, g - k);
      ShlZero(g - k);
    }
  }

  lemma NoneMade(tree: Tree, w: nat, P: nat)
    requires MaxLen(tree.lens) > 0 && Rev(MaxLen(tree.lens), P) >= Pow2(w)
    ensures MadeAt(tree, w, P) == 0
  {
    hide MaxLen, LenAt, Rev, TableBits, Shl;
  }

  /** The room for tables with codes of more than one length: one for each longest length. */
  function Extra(l: nat, w: nat, g: nat, k: nat): nat
    decreases g - k
  {
    if k >= g then 0 else TablePower(l, w, k + 1) + Extra(l, w, g, k + 1)
  }

  /** The size of a table of level `w` with a longest code of `k` bits. */
  function TablePower(l: nat, w: nat, k: nat): nat {
    if k < w then 1 else if k < w + l then Pow2(k - w) else Pow2(l)
  }

  lemma {:induction false} ExtraMono(l: nat, w: nat, g: nat, j: nat, k: nat)
    requires j <= k <= g
    ensures Extra(l, w, g, j) >= Extra(l, w, g, k)
    ensures j < k ==> Extra(l, w, g, j) >= TablePower(l, w, k) + Extra(l, w, g, k)
    decreases k - j
  {
    hide TablePower;
    if j < k { ExtraMono(l, w, g, j + 1, k); }
  }

  /** A table's interval, from its first code at `P` to the start of the next table. */
  lemma {:induction false} OneTable(tree: Tree, w: nat, P: nat)
    requires MaxLen(tree.lens) > 0 && w < MaxLen(tree.lens) && P < Pow2(MaxLen(tree.lens)) && Starts(tree.lens, P)
    requires w < LenAt(tree.lens, P) <= w + tree.l && Low(P, MaxLen(tree.lens) - w) == 0
    ensures var g := MaxLen(tree.lens);
            var Q := P + Pow2(g - w);
            var k, L := LenAt(tree.lens, P), LenAt(tree.lens, Q - 1);
            && Q <= Pow2(g) && Starts(tree.lens, Q) && Low(Q, g - w) == 0
            && k <= L <= g && LenAt(tree.lens, Q) >= L
            && LevelTables(tree, w, P) == TablePower(tree.l, w, L) + LevelTables(tree, w, Q)
            && CodesFrom(tree.lens, P) >= CodesFrom(tree.lens, Q)
            && (k == L ==> CodesFrom(tree.lens, P) - CodesFrom(tree.lens, Q) == TablePower(tree.l, w, L))
  {
    hide Shl, Low, MaxLen, LenAt, Rev, CodesFrom, Starts;
    var g, lens := MaxLen(tree.lens), tree.lens;
    var k, Q := LenAt(lens, P), P + Pow2(g - w);
    PowerMultiple(g, g - w);
    MultipleGap(P, Pow2(g), g - w);
    Multiple(P, g - w, g - w);
    PrefixStart(g, w, P);
    FirstCode(tree, w, P);
    LenAtMono(lens, P, Q - 1);
    LenAtMono(lens, Q - 1, Q);
    TableCodes(tree, w, P);
    TablesNext(tree, w, P);
  }

  lemma TablesNext(tree: Tree, w: nat, P: nat)
    requires MaxLen(tree.lens) > 0 && P < Pow2(MaxLen(tree.lens))
    ensures LevelTables(tree, w, P) == MadeAt(tree, w, P) + LevelTables(tree, w, P + Pow2(MaxLen(tree.lens) - LenAt(tree.lens, P)))
  {
    hide Shl, MaxLen, LenAt, MadeAt;
  }

  /** The codes of a table. */
  lemma TableCodes(tree: Tree, w: nat, P: nat)
    requires MaxLen(tree.lens) > 0 && w < MaxLen(tree.lens) && P < Pow2(MaxLen(tree.lens)) && Starts(tree.lens, P)
    requires w < LenAt(tree.lens, P) <= w + tree.l
    requires P + Pow2(MaxLen(tree.lens) - w) <= Pow2(MaxLen(tree.lens)) && Low(P + Pow2(MaxLen(tree.lens) - w), MaxLen(tree.lens) - w) == 0
    ensures var g := MaxLen(tree.lens);
            var Q := P + Pow2(g - w);
            var k, L := LenAt(tree.lens, P), LenAt(tree.lens, Q - 1);
            && Starts(tree.lens, Q)
            && LevelTables(tree, w, P + Pow2(g - k)) == LevelTables(tree, w, Q)
            && CodesFrom(tree.lens, P) >= CodesFrom(tree.lens, Q)
            && (k == L ==> CodesFrom(tree.lens, P) - CodesFrom(tree.lens, Q) == TablePower(tree.l, w, L))
  {
    hide Shl, Low, MaxLen, LenAt, Rev, CodesFrom, Starts, LevelTables;
    var g, lens := MaxLen(tree.lens), tree.lens;
    var k, Q := LenAt(lens, P), P + Pow2(g - w);
    NextStarts(lens, P);
    var P' := P + Pow2(g - k);
    MultipleOf(lens, P, Q, w);
    LenAtMono(lens, P, P');
    if P' < Q { LenAtMono(lens, P', Q - 1); }
    InsideTable(tree, w, P', Q);
    CodesNext(lens, P);
    if k == LenAt(lens, Q - 1) {
      var n := CodesFrom(lens, P) - CodesFrom(lens, Q);
      Pow2Mono(g - k, g - w - 1);
      Double(g - w);
      assert P' < Q && LenAt(lens, P') == k;
      assert Q - P' == Shl(n - 1, g - k);
      UniformCount(tree.l, w, k, g, n);
    }
  }

  lemma Double(n: nat)
    requires n > 0
    ensures Pow2(n) == 2 * Pow2(n - 1)
  {
  }

  lemma UniformCount(l: nat, w: nat, k: nat, g: nat, n: int)
    requires w < k <= g && k <= w + l && Pow2(g - w) == Pow2(g - k) + Shl(n - 1, g - k)
    ensures n == TablePower(l, w, k)
  {
    hide Shl;
    ShlAdd(n - 1, 1, g - k);
    Pow2Add(k - w, g - k);
    ShlSame(n, Pow2(k - w), g - k);
  }

  lemma ShlSame(x: int, y: int, n: nat)
    requires Shl(x, n) == Shl(y, n)
    ensures x == y
  {
    hide Shl;
    if x < y { ShlMono(x, y, n); } else if y < x { ShlMono(y, x, n); }
  }

  lemma CodesNext(lens: Lengths, P: nat)
    requires MaxLen(lens) > 0 && P < Pow2(MaxLen(lens))
    ensures CodesFrom(lens, P) == 1 + CodesFrom(lens, P + Pow2(MaxLen(lens) - LenAt(lens, P)))
  {
    hide Shl, MaxLen, LenAt;
  }

  /** The first code of a table lies inside its interval. */
  lemma MultipleOf(lens: Lengths, P: nat, Q: nat, w: nat)
    requires MaxLen(lens) > 0 && w < LenAt(lens, P) && P < Q == P + Pow2(MaxLen(lens) - w)
    ensures P + Pow2(MaxLen(lens) - LenAt(lens, P)) <= Q < P + Pow2(MaxLen(lens) - LenAt(lens, P)) + Pow2(MaxLen(lens) - w)
  {
    hide Shl, MaxLen, LenAt;
    Pow2Mono(MaxLen(lens) - LenAt(lens, P), MaxLen(lens) - w);
  }

  /** The table made for the first code of a prefix. */
  lemma FirstCode(tree: Tree, w: nat, P: nat)
    requires MaxLen(tree.lens) > 0 && w < MaxLen(tree.lens) && P < Pow2(MaxLen(tree.lens))
    requires w < LenAt(tree.lens, P) <= w + tree.l && Rev(MaxLen(tree.lens), P) < Pow2(w)
    ensures MadeAt(tree, w, P) == TablePower(tree.l, w, LenAt(tree.lens, P + Pow2(MaxLen(tree.lens) - w) - 1))
  {
    hide Shl, MaxLen, LenAt, Rev;
    var g := MaxLen(tree.lens);
    RevRev(g, P);
    LowSmall(P, g);
    LenAtMono(tree.lens, P, P + Pow2(g - w) - 1);
  }

  /** From the start of a table of level `w` on. */
  lemma {:induction false} TablesBound(tree: Tree, w: nat, P: nat, k: nat)
    requires MaxLen(tree.lens) > 0 && w < MaxLen(tree.lens) && Starts(tree.lens, P) && Shallow(tree) && IsLevel(tree.l, w)
    requires Low(P, MaxLen(tree.lens) - w) == 0 && w < k <= MaxLen(tree.lens) && k <= LenAt(tree.lens, P)
    ensures LevelTables(tree, w, P) <= CodesFrom(tree.lens, P) + Extra(tree.l, w, MaxLen(tree.lens), k)
    decreases Pow2(MaxLen(tree.lens)) - P
  {
    hide Shl, Low, MaxLen, LenAt, Rev, CodesFrom, Starts, Shallow, IsLevel, TablePower, Extra, LevelTables;
    var g := MaxLen(tree.lens);
    StartsInside(tree.lens, P);
    if P == Pow2(g) {
      NoTables(tree, w, P);
    } else {
      var k' := LenAt(tree.lens, P);
      PrefixStart(g, w, P);
      ShallowAt(tree, w, P);
      OneTable(tree, w, P);
      var Q := P + Pow2(g - w);
      var L := LenAt(tree.lens, Q - 1);
      TablesBound(tree, w, Q, L);
      ExtraMono(tree.l, w, g, k', L);
      ExtraMono(tree.l, w, g, k, k');
    }
  }

  lemma StartsInside(lens: Lengths, P: nat)
    requires MaxLen(lens) > 0 && Starts(lens, P)
    ensures P <= Pow2(MaxLen(lens))
  {
  }

  lemma NoTables(tree: Tree, w: nat, P: nat)
    requires MaxLen(tree.lens) > 0 && P >= Pow2(MaxLen(tree.lens))
    ensures LevelTables(tree, w, P) == 0
  {
  }

  lemma ShallowAt(tree: Tree, w: nat, P: nat)
    requires MaxLen(tree.lens) > 0 && w < MaxLen(tree.lens) && Shallow(tree) && IsLevel(tree.l, w)
    requires P < Pow2(MaxLen(tree.lens)) && Rev(MaxLen(tree.lens), P) < Pow2(w)
    ensures LenAt(tree.lens, P) <= w + tree.l
  {
    hide Shl, MaxLen, LenAt, Rev, IsLevel, Low;
    var g := MaxLen(tree.lens);
    RevRev(g, P);
    LowSmall(P, g);
    assert LenAt(tree.lens, Pos(tree.lens, Rev(g, P))) <= w + tree.l;
  }

  /** All tables of a level take no more entries than there are codes, and the room for mixed tables. */
  lemma {:induction false} LevelBound(tree: Tree, w: nat, P: nat)
    requires MaxLen(tree.lens) > 0 && w < MaxLen(tree.lens) && Starts(tree.lens, P) && Shallow(tree) && IsLevel(tree.l, w)
    requires Low(P, MaxLen(tree.lens) - w) == 0
    ensures LevelTables(tree, w, P) <= CodesFrom(tree.lens, P) + Extra(tree.l, w, MaxLen(tree.lens), w + 1)
    decreases Pow2(MaxLen(tree.lens)) - P
  {
    hide Shl, Low, MaxLen, LenAt, Rev, Starts, Shallow, IsLevel, TablePower, Extra;
    var g := MaxLen(tree.lens);
    StartsInside(tree.lens, P);
    if P == Pow2(g) {
    } else if LenAt(tree.lens, P) <= w {
      NextStarts(tree.lens, P);
      var n := g - LenAt(tree.lens, P);
      Multiple(P + Pow2(n), g - w, n);
      LevelBound(tree, w, P + Pow2(n));
    } else {
      TablesBound(tree, w, P, w + 1);
    }
  }

  /** The first level is one table. */
  lemma RootBound(tree: Tree)
    requires MaxLen(tree.lens) > 0 && Shallow(tree) && Starts(tree.lens, 0)
    ensures LevelTables(tree, 0, 0) <= Pow2(tree.l)
  {
    hide Shl, Low, MaxLen, LenAt, Rev, Starts, CodesFrom;
    var g := MaxLen(tree.lens);
    LowOfZero(g);
    PrefixStart(g, 0, 0);
    assert IsLevel(tree.l, 0);
    ShallowAt(tree, 0, 0);
    OneTable(tree, 0, 0);
    NoTables(tree, 0, Pow2(g));
    var L := LenAt(tree.lens, Pow2(g) - 1);
    if L < tree.l { Pow2Mono(L, tree.l); }
  }

  // ----- The callers' codes

  lemma FirstStarts(lens: Lengths)
    requires MaxLen(lens) > 0
    ensures Starts(lens, 0)
  {
    hide MaxLen, LenAt;
    LowOfZero(MaxLen(lens) - LenAt(lens, 0));
  }

  /** The space that a complete code takes, looked up `l` bits at a time. */
  lemma CompleteSpace(tree: Tree)
    requires ValidLengths(tree.lens) && MaxLen(tree.lens) > 0 && !OverSubscribed(tree.lens) && !Incomplete(tree.lens)
    requires Shallow(tree) && 0 < tree.l < MaxLen(tree.lens) <= 3 * tree.l
    ensures var g, l := MaxLen(tree.lens), tree.l;
            Space(tree) <= Pow2(l) + |tree.lens| + Extra(l, l, g, l + 1)
                           + if 2 * l < g then |tree.lens| + Extra(l, 2 * l, g, 2 * l + 1) else 0
  {
    hide Shl, Low, MaxLen, LenAt, Rev, Starts, Shallow, OverSubscribed, Incomplete, LevelTables, Extra, CodesFrom;
    var g, l := MaxLen(tree.lens), tree.l;
    KraftAtMax(tree.lens);
    CodesBound(tree.lens);
    FirstStarts(tree.lens);
    SpaceByLevels(tree, 0);
    RootBound(tree);
    assert IsLevel(l, 0) && IsLevel(l, l);
    LowOfZero(g - l);
    LevelBound(tree, l, 0);
    if 2 * l < g {
      LowOfZero(g - 2 * l);
      LevelBound(tree, 2 * l, 0);
    } else {
      LevelEmpty(tree, 2 * l, 0);
    }
  }

  lemma {:induction false} LevelEmpty(tree: Tree, w: nat, P: nat)
    requires MaxLen(tree.lens) > 0 && w >= MaxLen(tree.lens)
    ensures LevelTables(tree, w, P) == 0
    decreases Pow2(MaxLen(tree.lens)) - P
  {
    hide Shl, MaxLen, LenAt, Rev;
    if P < Pow2(MaxLen(tree.lens)) { LevelEmpty(tree, w, P + Pow2(MaxLen(tree.lens) - LenAt(tree.lens, P))); }
  }

  lemma {:induction false} ExtraLonger(l: nat, w: nat, g: nat, h: nat, k: nat)
    requires g <= h
    ensures Extra(l, w, g, k) <= Extra(l, w, h, k)
    decreases h - k
  {
    hide TablePower;
    if k < g { ExtraLonger(l, w, g, h, k + 1); }
  }

  lemma ExtraLiteral()
    ensures Extra(9, 9, 15, 10) == 124
  {
    SmallPowers();
    assert Pow2(2) == 4 && Pow2(3) == 8 && Pow2(4) == 16 && Pow2(6) == 64;
    hide Pow2, Shl;
    assert Extra(9, 9, 15, 15) == 0;
    assert Extra(9, 9, 15, 14) == 64;
    assert Extra(9, 9, 15, 13) == 96;
    assert Extra(9, 9, 15, 12) == 112;
    assert Extra(9, 9, 15, 11) == 120;
  }

  lemma ExtraDistance()
    ensures Extra(6, 6, 15, 7) == 316 && Extra(6, 12, 15, 13) == 12
  {
    SmallPowers();
    assert Pow2(2) == 4 && Pow2(3) == 8 && Pow2(4) == 16 && Pow2(6) == 64;
    hide Pow2, Shl;
    assert Extra(6, 6, 15, 15) == 0;
    assert Extra(6, 6, 15, 14) == 64;
    assert Extra(6, 6, 15, 13) == 128;
    assert Extra(6, 6, 15, 12) == 192;
    assert Extra(6, 6, 15, 11) == 256;
    assert Extra(6, 6, 15, 10) == 288;
    assert Extra(6, 6, 15, 9) == 304;
    assert Extra(6, 6, 15, 8) == 312;
    assert Extra(6, 12, 15, 15) == 0;
    assert Extra(6, 12, 15, 14) == 8;
  }

  /** The table space of a code looked up `m` bits at a time, if it has few symbols. */
  lemma UsableSpace(lens: Lengths, al: Alphabet, m: nat)
    requires ValidLengths(lens) && Decodable(lens) && 0 < m && |lens| < Pow2(m + 1) && 15 <= 3 * m
    ensures MaxLen(lens) <= 15
    ensures Space(MakeTree(lens, al, m)) <= Pow2(m) + |lens| + Extra(m, m, 15, m + 1) + |lens| + Extra(m, 2 * m, 15, 2 * m + 1)
    ensures 15 <= 2 * m ==> Space(MakeTree(lens, al, m)) <= Pow2(m) + |lens| + Extra(m, m, 15, m + 1)
  {
    hide Shl, MaxLen, LenAt, OverSubscribed, Incomplete, Shallow, Space, MinLenFrom, Extra;
    var tree, g := MakeTree(lens, al, m), MaxLen(lens);
    KraftAtMax(lens);
    UsableWidth(lens, m);
    UsableShallow(lens, al, m);
    if tree.l == g {
      SingleTableSpace(tree);
      Pow2Mono(g, m);
    } else {
      assert tree.l == m;
      CompleteSpace(tree);
      ExtraLonger(m, m, g, 15, m + 1);
      ExtraLonger(m, 2 * m, g, 15, 2 * m + 1);
    }
  }

  /** Whatever two codes a block has, their tables fit. */
  lemma ManySuffices(lit: Lengths, dist: Lengths)
    requires ValidLengths(lit) && Decodable(lit) && |lit| <= 286
    requires ValidLengths(dist) && Decodable(dist) && |dist| <= 30
    ensures Space(MakeTree(lit, LITERALS, LITERAL_WIDTH)) <= 922
    ensures Space(MakeTree(lit, LITERALS, LITERAL_WIDTH)) + Space(MakeTree(dist, DISTANCES, DISTANCE_WIDTH)) <= 1374 < 1440 == MANY
  {
    hide Shl, MaxLen, OverSubscribed, Incomplete, Space, MinLenFrom, Extra;
    SmallPowers();
    SixtyFour();
    UsableSpace(lit, LITERALS, LITERAL_WIDTH);
    UsableSpace(dist, DISTANCES, DISTANCE_WIDTH);
    ExtraLiteral();
    ExtraDistance();
  }

  lemma SixtyFour()
    ensures Pow2(6) == 64
  {
  }

  lemma LiteralSuffices(lit: Lengths)
    requires ValidLengths(lit) && Decodable(lit) && |lit| <= 286
    ensures Space(MakeTree(lit, LITERALS, LITERAL_WIDTH)) <= 922 < MANY
  {
    hide Shl, MaxLen, OverSubscribed, Incomplete, Space, MinLenFrom, Extra;
    SmallPowers();
    UsableSpace(lit, LITERALS, LITERAL_WIDTH);
    ExtraLiteral();
  }

  /** The codes of a block as its header gives them: only the lengths decide. */
  predicate CodesOK(lit: Lengths, dist: Lengths) {
    Decodable(lit) && if MaxLen(dist) == 0 then |lit| <= 257 else Decodable(dist)
  }

  /** So the decoder never refuses a code for lack of table space. */
  lemma DynamicIsKraft(lit: Lengths, dist: Lengths)
    requires ValidLengths(lit) && ValidLengths(dist) && |lit| <= 286 && |dist| <= 30
    ensures DynamicUsable(lit, dist) <==> CodesOK(lit, dist)
  {
    hide MaxLen, OverSubscribed, Incomplete, Space, MakeTree;
    if CodesOK(lit, dist) {
      LiteralSuffices(lit);
      if MaxLen(dist) > 0 { ManySuffices(lit, dist); }
    }
  }
}
