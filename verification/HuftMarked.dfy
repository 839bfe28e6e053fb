/** What was in the table space before shows whenever, and only when, tables are too deep: in a space full of
  * marks that no entry can be, some stream leads the decoder to a mark if and only if the code is not shallow.
  */
module HuftMarked {
  import opened Bits
  import opened Canonical
  import opened HuftTables
  import opened HuftLabels
  import opened HuftBuild
  import opened InflateTrees
  import opened InfLookup

  /** Operations are bytes, so this is no entry. */
  const MARK := Huft(256, 0, 0)

  ghost predicate ReadsMark(T: seq<Huft>, t: nat, j: nat) {
    exists x: nat, a: nat :: Visits(T, t, j, x, a) && a < |T| && T[a] == MARK
  }

  /** No symbol looks like a link to another table. */
  predicate NoLinks(al: Alphabet) {
    forall s :: 0 <= s < al.simple + |al.bases| && InAlphabet(al, s) ==> SymbolExop(al, s) == 0 || SymbolExop(al, s) >= 16
  }

  /** That holds for the callers' alphabets. */
  lemma CallersNoLinks()
    ensures NoLinks(BITS_ALPHABET) && NoLinks(LITERALS) && NoLinks(DISTANCES)
  {
    hide CPLENS, CPLEXT, CPDIST, CPDEXT;
    forall i | 0 <= i < |CPLEXT| ensures CPLEXT[i] <= 112 { LengthExtras(i); }
    forall i | 0 <= i < |CPDEXT| ensures CPDEXT[i] <= 112 { DistanceExtras(i); }
    FewExtras(BITS_ALPHABET);
    FewExtras(LITERALS);
    FewExtras(DISTANCES);
  }

  lemma FewExtras(al: Alphabet)
    requires forall i :: 0 <= i < |al.extras| ==> al.extras[i] <= 112
    ensures NoLinks(al)
  {
  }

  lemma LeafBytes(e: Huft, tree: Tree, w: nat, v: nat)
    requires MaxLen(tree.lens) > 0 && NoLinks(tree.alphabet) && LeafOK(e, tree, w, v)
    ensures e.exop == 0 || 16 <= e.exop < 256
  {
    hide MaxLen, LenAt, SymbolAt;
  }

  /** In right tables the decoder finds entries only. */
  lemma {:induction false} NoMarks(T: seq<Huft>, tree: Tree, t: nat, j: nat, w: nat, pat: nat, x: nat, a: nat)
    requires IsTable(T, tree, t, j, w, pat) && NoLinks(tree.alphabet) && Visits(T, t, j, x, a)
    ensures a < |T| && T[a].exop < 256
    decreases |T| - t
  {
    hide MaxLen, LenAt, Low, Shr, Shl, LeafOK, NoLinks, SymbolAt, TableBits, Rev;
    var i := Low(x, j);
    LowBound(x, j);
    assert IsSlot(T, tree, t, j, w, pat, i);
    var e, p := T[t + i], pat + Shl(i, w);
    if LenAt(tree.lens, Pos(tree.lens, p)) <= w + j {
      LeafBytes(e, tree, w, Pos(tree.lens, p));
    } else if t + i != a {
      NoMarks(T, tree, t + i + e.base, e.exop, w + tree.l, p, Shr(x, e.bits), a);
    }
  }

  /** Build tables in a space full of marks. */
  method BuildMarked(b: Lengths, al: Alphabet, m: nat, hp: array<Huft>, v: array<nat>)
    returns (r: Verdict, t: nat, l: nat, hn: nat)
    requires ValidLengths(b) && |b| > 0 && NoLinks(al)
    requires forall s :: 0 <= s < |b| ==> InAlphabet(al, s)
    requires hp.Length == MANY && v.Length >= |b| && forall d :: 0 <= d < MANY ==> hp[d] == MARK
    modifies hp, v
    ensures hn <= MANY
    ensures MaxLen(b) > 0 && r != DataError ==> 1 <= l && (ReadsMark(hp[..hn], t, l) <==> !Shallow(Tree(b, l, al)))
  {
    hide MaxLen, OverSubscribed, Incomplete, Shallow, IsTable, Visits, NoLinks;
    r, t, l, hn := Build(b, al, m, hp, 0, v);
    if MaxLen(b) > 0 && r != DataError && Shallow(Tree(b, l, al)) && ReadsMark(hp[..hn], t, l) {
      var x: nat, a: nat :| Visits(hp[..hn], t, l, x, a) && a < hn && hp[..hn][a] == MARK;
      NoMarks(hp[..hn], Tree(b, l, al), t, l, 0, 0, x, a);
    }
  }
}
