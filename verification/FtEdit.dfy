/** Editing a flattened device tree. */
module FtEdit {
  import opened Bits
  import opened FtBlob
  import opened FtLayout
  import opened FtSpace
  import opened FtTokens
  import opened FtNames
  import T = FtTree

  predicate IsString(name: seq<byte>) {
    forall i :: 0 <= i < |name| ==> name[i] != 0
  }

  // ----- Strings

  /** The position of a string, searching string by string from `i` on, or -1. */
  function FindString(strings: seq<byte>, i: nat, name: seq<byte>): int
    decreases |strings| - i
  {
    if i >= |strings| then -1
    else if NameAt(strings, i) == name then i
    else FindString(strings, i + StrLen(strings[i..]) + 1, name)
  }

  lemma {:induction false} FindStringIs(strings: seq<byte>, i: nat, name: seq<byte>)
    requires Terminated(strings)
    ensures var r := FindString(strings, i, name);
            r >= 0 ==> HasName(strings, r) && NameAt(strings, r) == name
    decreases |strings| - i
  {
    hide NameAt, HasName, StrLen;
    if i < |strings| {
      StringEnds(strings, i);
      if NameAt(strings, i) != name { FindStringIs(strings, i + StrLen(strings[i..]) + 1, name); }
    }
  }

  lemma StringEnds(strings: seq<byte>, i: nat)
    requires Terminated(strings) && i < |strings|
    ensures HasName(strings, i)
  {
    var s := strings[i..];
    assert s[|s| - 1] == 0;
  }

  /** Look a string up. */
  method LookupString(c: Cxt, name: seq<byte>) returns (found: bool, at: int)
    requires c.Valid()
    ensures found == (FindString(c.TheView().strings, 0, name) >= 0)
    ensures found ==> at == c.strings.start + FindString(c.TheView().strings, 0, name)
  {
    hide NameAt, StrLen, Wf, InOrder, FindString;
    WfStrings(c.TheLayout());
    var str := c.blob[c.strings.start - c.bph..c.strings.End() - c.bph];
    var i := 0;
    while i < |str|
      invariant 0 <= i && FindString(str, i, name) == FindString(str, 0, name)
      decreases |str| - i
    {
      FindNext(str, i, name);
      if NameAt(str, i) == name {
        return true, c.strings.start + i;
      }
      i := i + StrLen(str[i..]) + 1;
    }
    FindNext(str, i, name);
    found, at := false, 0;
  }

  lemma FindNext(strings: seq<byte>, i: nat, name: seq<byte>)
    ensures FindString(strings, i, name) == if i >= |strings| then -1
                                            else if NameAt(strings, i) == name then i
                                            else FindString(strings, i + StrLen(strings[i..]) + 1, name)
  {
  }

  /** A string can be had without harm: it is there, or there is room for it where it is to go. */
  ghost predicate CanName(c: Cxt, name: seq<byte>)
    requires c.Valid()
    reads c
  {
    FindString(c.TheView().strings, 0, name) >= 0 || c.InPlace(|name| + 1)
  }

  /** Sizes are those of 32-bit numbers, with room to spare. */
  ghost predicate Small(v: View, name: seq<byte>) {
    && |name| < 0x1000_0000 && |v.strings| + |name| + 1 < MAX_STRINGS
    && v.anchor + |name| + 1 < 0x2000_0000
  }

  /** Write bytes over those at address `q`. */
  method WriteAt(c: Cxt, q: int, data: seq<byte>)
    requires c.bph <= q && q + |data| <= c.bph + |c.blob| && 1 <= c.nodesUsed <= |c.nodeTbl|
    modifies c`blob
    ensures c.TheLayout() == Write(old(c.TheLayout()), q, data) && |c.blob| == old(|c.blob|)
  {
    c.blob := Put(c.blob, q - c.bph, data);
  }

  /** What mapping a string leaves behind. */
  ghost predicate Mapped(v: View, w: View, ts: seq<Token>, name: seq<byte>, off: nat) {
    && w.header == v.header && w.rsvmap == v.rsvmap && w.structs == v.structs && w.nodes == v.nodes && w.p == v.p
    && Represents(w, ts) && TheItems(w, ts) == TheItems(v, ts)
    && off < 0x1_0000_0000
    && HasName(w.strings, w.anchor + Signed(off)) && NameAt(w.strings, w.anchor + Signed(off)) == name
  }

  /** The strings have become longer at the start. */
  ghost predicate Lengthened(v: View, w: View, n: nat) {
    |w.strings| == |v.strings| + n && w.anchor == v.anchor + n
  }

  /** The bytes of the string that do not fit into the `gap` bytes before the strings have replaced the
    * end of the structure. */
  ghost predicate Overwritten(v: View, w: View, name: seq<byte>, gap: int) {
    && 0 <= gap <= |name|
    && var d := |name| + 1 - gap;
       var e := if d <= |v.structs| then d else |v.structs|;
       w.structs == v.structs[..|v.structs| - e] + (name + [0])[d - e..d]
  }

  /** And offset `off`, which was to be that of the string, names nothing. */
  ghost predicate Misplaced(v: View, w: View, name: seq<byte>, gap: int, off: nat) {
    && Overwritten(v, w, name, gap) && |w.structs| == |v.structs|
    && off < 0x1_0000_0000 && !HasName(w.strings, w.anchor + Signed(off))
  }

  /** The one case in which that changes nothing: only the last byte is replaced, by itself. */
  predicate SameEnd(name: seq<byte>, gap: int) {
    gap == |name| && |name| > 0 && name[0] == OF_DT_END
  }

  /** Otherwise what is left is not a structure: no tokens lead to an end tag. */
  lemma OverwrittenLost(v: View, w: View, ts: seq<Token>, name: seq<byte>, gap: int)
    requires Represents(v, ts) && IsString(name) && Overwritten(v, w, name, gap)
    ensures SameEnd(name, gap) ==> w.structs == v.structs
    ensures !SameEnd(name, gap) ==> forall us :: !Represents(w, us)
  {
    hide Reads, Named, Size, Terminated;
    LastOf(v, ts);
    LastWritten(v.structs, w.structs, name, gap);
    forall us | !SameEnd(name, gap) ensures !Represents(w, us) {
      if Represents(w, us) { LastOf(w, us); }
    }
  }

  predicate EndsWell(s: seq<byte>) {
    |s| >= 4 && s[|s| - 1] == OF_DT_END && s[|s| - 2] == 0
  }

  lemma LastWritten(s: seq<byte>, t: seq<byte>, name: seq<byte>, gap: nat)
    requires EndsWell(s) && IsString(name) && gap <= |name|
    requires var d := |name| + 1 - gap;
             var e := if d <= |s| then d else |s|;
             t == s[..|s| - e] + (name + [0])[d - e..d]
    ensures if SameEnd(name, gap) then t == s else !EndsWell(t)
  {
    var d, u := |name| + 1 - gap, name + [0];
    var e := if d <= |s| then d else |s|;
    assert t[|t| - 1] == u[d - 1];
    if d >= 2 {
      assert t[|t| - 2] == u[d - 2] == name[d - 2];
    }
    if SameEnd(name, gap) {
      assert u[0..1] == [name[0]];
      assert s == s[..|s| - 1] + [s[|s| - 1]];
    }
  }

  lemma LastOf(v: View, ts: seq<Token>)
    requires Represents(v, ts)
    ensures EndsWell(v.structs)
  {
    hide Reads, Named, Size, Bytes;
    ReadsRest(v.structs, ts, Bytes(OF_DT_END));
    EndIs();
    LastBytes(v.structs, Size(ts));
  }

  lemma EndIs()
    ensures Bytes(OF_DT_END) == [0, 0, 0, OF_DT_END]
  {
  }

  lemma LastBytes(s: seq<byte>, k: nat)
    requires k <= |s| && s[k..] == [0, 0, 0, OF_DT_END]
    ensures |s| == k + 4 && s[|s| - 1] == OF_DT_END && s[|s| - 2] == 0
  {
    assert s[|s| - 1] == s[k..][3] && s[|s| - 2] == s[k..][2];
  }

  /** The free space between structure and strings. */
  ghost function GapOf(c: Cxt): int
    reads c
  {
    c.strings.start - c.structs.End()
  }

  /** Look a string up, and add it if it is not there.  Fails only if the allocator does.  On success
    * the offset returned names the string, with nothing else changed, if and only if the string could
    * be had without moving the strings up.  Otherwise its bytes go over the end of the structure, and
    * the offset names nothing. */
  method MapString(c: Cxt, name: seq<byte>, ghost ts: seq<Token>) returns (ok: bool, off: nat)
    requires c.Valid() && Represents(c.TheView(), ts) && IsString(name) && Small(c.TheView(), name)
    requires CanName(c, name) || |name| + 1 <= c.strings.start - c.bph
    modifies c
    ensures c.Valid() && c.nodesUsed == old(c.nodesUsed) && |c.nodeTbl| == old(|c.nodeTbl|)
    ensures !ok ==> c.TheView() == old(c.TheView())
    ensures ok ==> (Mapped(old(c.TheView()), c.TheView(), ts, name, off) <==> old(CanName(c, name)))
    ensures ok && !old(CanName(c, name)) ==> Misplaced(old(c.TheView()), c.TheView(), name, old(GapOf(c)), off)
    ensures ok && old(c.StaysPut()) ==> c.TheView().p == old(c.TheView().p)
    ensures ok && old(!c.isordered && FindString(c.TheView().strings, 0, name) < 0) ==>
              && c.isordered && Lengthened(old(c.TheView()), c.TheView(), |name| + 1)
              && c.ReorderedFor(|name| + 1, old(c.rsvmap.size), old(c.structs.size), old(c.strings.size))
    ensures old(c.calls) <= c.calls && (ok <==> !c.Refused(old(c.calls), c.calls))
  {
    hide ViewOf, Wf, Represents, NameAt, HasName;
    ghost var v := c.TheView();
    var at;
    ok, at := LookupString(c, name);
    c.RefusedNone(c.calls);
    if ok {
      FoundIs(c, ts, name);
      off := Unsigned(at - c.strAnchor);
      return;
    }
    ok, off := AddString(c, name, ts);
  }

  lemma FoundIs(c: Cxt, ts: seq<Token>, name: seq<byte>)
    requires c.Valid() && Represents(c.TheView(), ts) && FindString(c.TheView().strings, 0, name) >= 0
    ensures var v, r := c.TheView(), FindString(c.TheView().strings, 0, name);
            var off := c.strings.start + r - c.strAnchor;
            -0x8000_0000 <= off < 0x8000_0000 && Mapped(v, v, ts, name, Unsigned(off))
  {
    hide Reads, Named, StrLen, NameAt, FindString, Items, Signed, ViewOf, Wf;
    WfStrings(c.TheLayout());
    AnchorIs(c.TheLayout());
    FindStringIs(c.TheView().strings, 0, name);
  }

  /** Add a string before the others. */
  method AddString(c: Cxt, name: seq<byte>, ghost ts: seq<Token>) returns (ok: bool, off: nat)
    requires c.Valid() && Represents(c.TheView(), ts) && IsString(name) && Small(c.TheView(), name)
    requires c.InPlace(|name| + 1) || |name| + 1 <= c.strings.start - c.bph
    modifies c
    ensures c.Valid() && c.nodesUsed == old(c.nodesUsed) && |c.nodeTbl| == old(|c.nodeTbl|)
    ensures !ok ==> c.TheView() == old(c.TheView())
    ensures ok ==> (Mapped(old(c.TheView()), c.TheView(), ts, name, off) <==> old(c.InPlace(|name| + 1)))
    ensures ok && !old(c.InPlace(|name| + 1)) ==> Misplaced(old(c.TheView()), c.TheView(), name, old(GapOf(c)), off)
    ensures ok && old(c.StaysPut()) ==> c.TheView().p == old(c.TheView().p)
    ensures ok ==> c.isordered && Lengthened(old(c.TheView()), c.TheView(), |name| + 1)
    ensures ok && !old(c.isordered) ==> c.ReorderedFor(|name| + 1, old(c.rsvmap.size), old(c.structs.size), old(c.strings.size))
    ensures ok && old(c.Free(|name| + 1)) ==>
              && c.bph == old(c.bph) && |c.blob| == old(|c.blob|) && c.structs == old(c.structs)
              && c.strings == Region(old(c.strings.start) - (|name| + 1), old(c.strings.size) + |name| + 1)
    ensures old(c.calls) <= c.calls && (ok <==> !c.Refused(old(c.calls), c.calls))
  {
    hide ViewOf, Wf, Represents, NameAt, HasName, Opened, Mapped, Misplaced, Write, Signed, IsString;
    ghost var v, n, gap := c.TheView(), |name| + 1, GapOf(c);
    ghost var fits := c.InPlace(n);
    off := 0;
    WfStrings(c.TheLayout());
    CanAdd(c, n);
    var q;
    ghost var shift;
    ok, q, shift := c.MakeSpace(c.strings.start, Strings, |name| + 1);
    if !ok {
      return;
    }
    ghost var l := c.TheLayout();
    PutName(c, q, name, v, ts, fits, gap);
    SameLengthened(v, l, c.TheLayout(), n);
    off := Unsigned(q - c.strAnchor);
  }

  /** Write the string where there is to be room for it: before the others, if it `fits`, or over the
    * end of the structure. */
  method PutName(c: Cxt, q: int, name: seq<byte>, ghost v: View, ghost ts: seq<Token>, ghost fits: bool, ghost gap: int)
    requires c.Valid() && c.isordered && Represents(v, ts) && IsString(name) && Small(v, name)
    requires Opened(v, c.TheView(), Strings, 0, |name| + 1)
    requires fits ==> q == c.strings.start && c.TheView().p == v.p
    requires !fits ==> 0 <= gap <= |name| < c.strings.size && q == c.structs.End() - (|name| + 1 - gap) && c.bph <= q
    requires c.strings.start - q <= 2 * (|name| + 1) + 2048
    modifies c`blob
    ensures c.Valid() && |c.blob| == old(|c.blob|)
    ensures Mapped(v, c.TheView(), ts, name, Unsigned(q - c.strAnchor)) <==> fits
    ensures !fits ==> Misplaced(v, c.TheView(), name, gap, Unsigned(q - c.strAnchor))
    ensures c.TheView().p == old(c.TheView().p)
  {
    hide ViewOf, Wf, InOrder, Represents, Opened, Mapped, Misplaced, Write, Small, IsString;
    ghost var l := c.TheLayout();
    if fits { NameFits(l, v, ts, name); } else { NameOver(l, v, ts, name, gap, q); }
    WriteAt(c, q, name + [0]);
  }

  /** The string written before the others. */
  lemma NameFits(l: Layout, v: View, ts: seq<Token>, name: seq<byte>)
    requires Wf(l) && InOrder(l) && Represents(v, ts) && IsString(name) && Small(v, name)
    requires Opened(v, ViewOf(l), Strings, 0, |name| + 1) && ViewOf(l).p == v.p
    ensures var q := l.strings.start;
            && l.bph <= q && q + |name| + 1 <= l.bph + |l.blob|
            && var m := Write(l, q, name + [0]);
               && Wf(m) && InOrder(m) && |m.blob| == |l.blob|
               && Mapped(v, ViewOf(m), ts, name, Unsigned(q - l.anchor)) && ViewOf(m).p == ViewOf(l).p
  {
    hide ViewOf, Wf, Represents, Opened, Mapped, Signed, Unsigned;
    StringsRoom(l, v, |name| + 1);
    WriteStrings(l, l.strings.start, name + [0]);
    KeepsOrder(l, l.strings.start, name + [0]);
    var m := Write(l, l.strings.start, name + [0]);
    AnchorIs(m);
    AddedIs(v, ViewOf(l), ViewOf(m), ts, name);
  }

  /** The string written over the end of the structure. */
  lemma NameOver(l: Layout, v: View, ts: seq<Token>, name: seq<byte>, gap: nat, q: int)
    requires Wf(l) && InOrder(l) && Represents(v, ts) && Small(v, name)
    requires Opened(v, ViewOf(l), Strings, 0, |name| + 1)
    requires gap <= |name| < l.strings.size && q == l.structs.End() - (|name| + 1 - gap) && l.bph <= q
    requires l.strings.start - q <= 2 * (|name| + 1) + 2048
    ensures q + |name| + 1 <= l.bph + |l.blob|
    ensures var m := Write(l, q, name + [0]);
            && Wf(m) && InOrder(m) && |m.blob| == |l.blob|
            && Misplaced(v, ViewOf(m), name, gap, Unsigned(q - l.anchor)) && !Mapped(v, ViewOf(m), ts, name, Unsigned(q - l.anchor))
            && ViewOf(m).p == ViewOf(l).p
  {
    hide ViewOf, Represents, Opened, Mapped, Signed, Unsigned;
    OverRoom(l, v, |name| + 1, q, gap);
    WriteOver(l, q, name + [0]);
    var m := Write(l, q, name + [0]);
    AnchorIs(m);
    PositionIs(l, m);
    hide Wf, InOrder;
    OverIs(v, ViewOf(m), name, gap);
    AnchorSmall(v, ts);
    OffsetLost(v, ViewOf(m), ts, name, q - l.strings.start);
  }

  lemma PositionIs(l: Layout, m: Layout)
    requires Wf(l) && Wf(m) && m == l.(blob := m.blob)
    ensures ViewOf(m).p == ViewOf(l).p
  {
  }

  lemma AnchorSmall(v: View, ts: seq<Token>)
    requires Represents(v, ts)
    ensures -0x2000_0000 < v.anchor < 0x2000_0000
  {
    hide Reads, Named;
  }

  lemma SameLengthened(v: View, l: Layout, m: Layout, n: nat)
    requires Wf(l) && Wf(m) && Opened(v, ViewOf(l), Strings, 0, n) && m == l.(blob := m.blob)
    ensures Lengthened(v, ViewOf(m), n)
  {
  }

  lemma OverIs(v: View, w: View, name: seq<byte>, gap: int)
    requires 0 <= gap <= |name|
    requires var d := |name| + 1 - gap;
             var e := if d <= |v.structs| then d else |v.structs|;
             w.structs == v.structs[..|v.structs| - e] + (name + [0])[d - e..d]
    ensures Overwritten(v, w, name, gap)
  {
  }

  /** An offset that leads to before the strings names nothing. */
  lemma OffsetLost(v: View, w: View, ts: seq<Token>, name: seq<byte>, i: int)
    requires -0x3000_0000 <= i < 0 && -0x2000_0000 < w.anchor < 0x4000_0000
    ensures !HasName(w.strings, w.anchor + Signed(Unsigned(i - w.anchor)))
    ensures !Mapped(v, w, ts, name, Unsigned(i - w.anchor))
  {
    hide Reads, Named, NameAt;
  }

  lemma WfStrings(l: Layout)
    requires Wf(l)
    ensures l.bph <= l.strings.start <= l.strings.End() <= l.bph + |l.blob|
    ensures ViewOf(l).strings == l.blob[l.strings.start - l.bph..l.strings.End() - l.bph]
    ensures |ViewOf(l).structs| == l.structs.size
  {
  }

  lemma CanAdd(c: Cxt, n: nat)
    requires c.Valid()
    ensures c.CanOpen(c.strings.start, Strings, n)
  {
  }

  lemma AnchorIs(l: Layout)
    requires Wf(l)
    ensures ViewOf(l).anchor == l.anchor - l.strings.start
  {
  }

  /** There is room for the string before the others. */
  lemma StringsRoom(l: Layout, v: View, n: nat)
    requires Wf(l) && Opened(v, ViewOf(l), Strings, 0, n)
    ensures l.strings.start + n <= l.strings.End() <= l.bph + |l.blob| && l.bph <= l.strings.start
  {
  }

  lemma AddedIs(v: View, w: View, u: View, ts: seq<Token>, name: seq<byte>)
    requires Represents(v, ts) && IsString(name) && Small(v, name)
    requires Opened(v, w, Strings, 0, |name| + 1) && w.p == v.p && 0 <= |name + [0]| <= |w.strings|
    requires u == w.(strings := Put(w.strings, 0, name + [0]))
    ensures Mapped(v, u, ts, name, Unsigned(0 - u.anchor))
  {
    hide Reads, Named, NameAt, HasName;
    GapFill(v.strings, w.strings, 0, name + [0]);
    assert v.strings[..0] + (name + [0]) + v.strings[0..] == name + [0] + v.strings;
    NameAdded(v, u, ts, name);
    TerminatedMore(name + [0], v.strings);
  }

  lemma TerminatedMore(a: seq<byte>, b: seq<byte>)
    requires |a| > 0 && a[|a| - 1] == 0 && Terminated(b)
    ensures Terminated(a + b)
  {
  }

  /** The bytes go over the end of the structure. */
  lemma OverRoom(l: Layout, v: View, n: nat, q: int, gap: nat)
    requires Wf(l) && InOrder(l) && Opened(v, ViewOf(l), Strings, 0, n) && gap < n <= l.strings.size
    requires q == l.structs.End() - (n - gap)
    ensures q < l.structs.End() <= q + n <= l.strings.End() <= l.bph + |l.blob|
    ensures ViewOf(l).structs == v.structs && l.structs.size == |v.structs| && ViewOf(l).anchor == v.anchor + n
  {
  }

  // ----- Writing tokens

  /** Bytes are written at the current position, which moves behind them. */
  ghost predicate Wrote(v: View, w: View, data: seq<byte>) {
    && 0 <= v.p && v.p + |data| <= |v.structs|
    && w == v.(structs := Put(v.structs, v.p, data), p := v.p + |data|)
  }

  lemma WroteMore(v: View, w: View, u: View, a: seq<byte>, b: seq<byte>)
    requires Wrote(v, w, a) && Wrote(w, u, b)
    ensures Wrote(v, u, a + b)
  {
    PutPut(v.structs, v.p, a, b);
  }

  /** Write bytes at `back` bytes before or after the current position, and move that by `move`. */
  method PutAt(c: Cxt, ahead: int, data: seq<byte>, move: int)
    requires c.Valid() && 0 <= c.TheView().p + ahead && c.TheView().p + ahead + |data| <= |c.TheView().structs|
    modifies c`blob, c`p
    ensures c.Valid()
    ensures c.TheView() == old(c.TheView()).(structs := Put(old(c.TheView()).structs, old(c.TheView()).p + ahead, data),
                                             p := old(c.TheView()).p + move)
  {
    hide Put, Wf, InOrder, ViewOf;
    ghost var l := c.TheLayout();
    StructIs(l);
    WriteStruct(l, c.p + ahead, data);
    WriteAt(c, c.p + ahead, data);
    MoveP(c.TheLayout(), move);
    KeepsOrder(l, c.p + ahead, data);
    c.p := c.p + move;
  }

  lemma StructIs(l: Layout)
    requires Wf(l)
    ensures |ViewOf(l).structs| == l.structs.size && ViewOf(l).p == l.p - l.structs.start
    ensures l.bph <= l.structs.start <= l.structs.End() <= l.bph + |l.blob|
  {
  }

  lemma MoveP(l: Layout, move: int)
    requires Wf(l)
    ensures Wf(l.(p := l.p + move)) && ViewOf(l.(p := l.p + move)) == ViewOf(l).(p := ViewOf(l).p + move)
    ensures InOrder(l) ==> InOrder(l.(p := l.p + move))
  {
    hide Shift;
  }

  lemma KeepsOrder(l: Layout, q: int, data: seq<byte>)
    requires l.bph <= q && q + |data| <= l.bph + |l.blob|
    ensures InOrder(l) ==> InOrder(Write(l, q, data))
  {
  }

  method PutWord(c: Cxt, w: nat)
    requires c.Valid() && w < 0x1_0000_0000 && 0 <= c.TheView().p && c.TheView().p + 4 <= |c.TheView().structs|
    modifies c`blob, c`p
    ensures c.Valid() && Wrote(old(c.TheView()), c.TheView(), Bytes(w))
  {
    hide ViewOf;
    PutAt(c, 0, Bytes(w), 4);
  }

  method PutBin(c: Cxt, data: seq<byte>)
    requires c.Valid() && 0 <= c.TheView().p && c.TheView().p + Align4(|data|) <= |c.TheView().structs|
    modifies c`blob, c`p
    ensures c.Valid() && Wrote(old(c.TheView()), c.TheView(), data + Padding(Align4(|data|) - |data|))
  {
    hide Put, ViewOf;
    ghost var v := c.TheView();
    var sz, sza := |data|, Align4(|data|);
    var zeros := [0, 0, 0, 0];
    // the last word of the value is filled with zeros
    if sz < sza {
      PutOver(v.structs, v.p, data, zeros, sza - 4);
      assert zeros[sz - (sza - 4)..] == Padding(sza - sz);
      PutAt(c, sza - 4, zeros, 0);
    } else {
      assert data + Padding(0) == data;
    }
    // copy in the data
    PutAt(c, 0, data, sza);
  }

  /** Write a property. */
  method PutProp(c: Cxt, off: nat, data: seq<byte>)
    requires c.Valid() && Writable(Prop(off, data))
    requires 0 <= c.TheView().p && c.TheView().p + Length(Prop(off, data)) <= |c.TheView().structs|
    modifies c`blob, c`p
    ensures c.Valid() && Wrote(old(c.TheView()), c.TheView(), Encode(Prop(off, data)))
  {
    hide Put, ViewOf, Bytes;
    ghost var v := c.TheView();
    PutWord(c, OF_DT_PROP);
    ghost var w := c.TheView();
    PutWord(c, |data|);
    WroteMore(v, w, c.TheView(), Bytes(OF_DT_PROP), Bytes(|data|));
    w := c.TheView();
    PutWord(c, off);
    WroteMore(v, w, c.TheView(), Bytes(OF_DT_PROP) + Bytes(|data|), Bytes(off));
    w := c.TheView();
    PutBin(c, data);
    var pad := Padding(Align4(|data|) - |data|);
    var head := Bytes(OF_DT_PROP) + Bytes(|data|) + Bytes(off);
    WroteMore(v, w, c.TheView(), head, data + pad);
    assert head + (data + pad) == head + data + pad;
  }

  // ----- Properties

  /** Every node handed out is still the same node; those from number `from` on have `born` new
    * nodes before them. */
  ghost predicate NodesKept(nodes: seq<int>, nodes': seq<int>, ts: seq<Token>, ts': seq<Token>, from: nat, born: nat) {
    && |nodes'| == |nodes|
    && forall i, m: nat :: 0 <= i < |nodes| && IsNode(ts, nodes[i], m) ==>
         IsNode(ts', nodes'[i], if m >= from then m + born else m)
  }

  /** Tokens `olds` between `a` and `b` have been replaced by `news`: what is flattened changes
    * just there. */
  ghost predicate Edited(v: View, w: View, a: seq<Token>, olds: seq<Token>, news: seq<Token>, b: seq<Token>, xs: seq<T.Item>) {
    && w.header == v.header && w.rsvmap == v.rsvmap
    && Represents(w, a + news + b)
    && TheItems(w, a + news + b) == TheItems(v, a) + xs + TheItems(v, b)
    && NodesKept(v.nodes, w.nodes, a + olds + b, a + news + b, Begins(a), Begins(news))
  }

  lemma {:induction false} BumpKeeps(nodes: seq<int>, a: seq<Token>, olds: seq<Token>, news: seq<Token>, b: seq<Token>, at: nat)
    requires (forall t :: t in olds ==> !t.Begin?) && Size(a) <= at <= Size(a) + Size(olds)
    requires olds == [] || Begins(news) == 0
    ensures NodesKept(nodes, Bump(nodes, at, Size(news) - Size(olds)), a + olds + b, a + news + b, Begins(a), Begins(news))
  {
    hide Size, Begins, IsNode;
    if olds == [] { SizeNone(); }
    var w := Bump(nodes, at, Size(news) - Size(olds));
    forall i, m: nat | 0 <= i < |nodes| && IsNode(a + olds + b, nodes[i], m)
      ensures IsNode(a + news + b, w[i], if m >= Begins(a) then m + Begins(news) else m)
    {
      NodeSurvives(a, olds, news, b, at, Size(news) - Size(olds), nodes[i], m);
    }
  }

  /** After `MapString` and `MakeSpace`, the tokens are in place. */
  lemma InsertIs(v: View, v1: View, v2: View, w: View, a: seq<Token>, b: seq<Token>, news: seq<Token>, code: seq<byte>, xs: seq<T.Item>)
    requires v1.nodes == v.nodes && v1.header == v.header && v1.rsvmap == v.rsvmap
    requires Represents(v1, a + b) && TheItems(v1, a + b) == TheItems(v, a + b)
    requires Opened(v1, v2, Structure, Size(a), |code|) && Size(a) + |code| <= |v2.structs|
    requires w == v2.(structs := Put(v2.structs, Size(a), code), p := w.p)
    requires (forall x :: Reads(code + x, news, x)) && Named(v1.strings, v1.anchor, news) && TheItems(v1, news) == xs
    requires |code| == Size(news)
    ensures Edited(v, w, a, [], news, b, xs)
  {
    hide Reads, Named, Items, Put, Size, Begins, NodesKept, Bump, Gap, Represents, Edited;
    SizeNone();
    InsertReads(v1, v2.structs, w, a, b, news, code);
    PartsSame(v, v1, a, b);
    BumpKeeps(v.nodes, a, [], news, b, Size(a));
    EditedIntro(v, w, a, [], news, b, xs);
  }

  /** The structure with the tokens in place. */
  lemma InsertReads(v1: View, s2: seq<byte>, w: View, a: seq<Token>, b: seq<Token>, news: seq<Token>, code: seq<byte>)
    requires Represents(v1, a + b) && Gap(v1.structs, s2, Size(a), |code|) && Size(a) + |code| <= |s2|
    requires w.structs == Put(s2, Size(a), code) && w.strings == v1.strings && w.anchor == v1.anchor
    requires (forall x :: Reads(code + x, news, x)) && Named(v1.strings, v1.anchor, news)
    ensures Represents(w, a + news + b)
    ensures TheItems(w, a + news + b) == TheItems(v1, a) + TheItems(v1, news) + TheItems(v1, b)
  {
    hide Reads, Named, Items, Put, Size, Gap, Represents;
    assert a + [] + b == a + b;
    assert a + [] == a;
    RepresentsSize(v1, a, b);
    GapFill(v1.structs, s2, Size(a), code);
    Spliced(v1, w, a, [], news, code, b);
  }

  lemma EditedIntro(v: View, w: View, a: seq<Token>, olds: seq<Token>, news: seq<Token>, b: seq<Token>, xs: seq<T.Item>)
    requires w.header == v.header && w.rsvmap == v.rsvmap && Represents(w, a + news + b)
    requires TheItems(w, a + news + b) == TheItems(v, a) + xs + TheItems(v, b)
    requires NodesKept(v.nodes, w.nodes, a + olds + b, a + news + b, Begins(a), Begins(news))
    ensures Edited(v, w, a, olds, news, b, xs)
  {
    hide Reads, Named, Items, Size, Begins, NodesKept, Represents;
  }

  lemma PartsSame(v: View, w: View, a: seq<Token>, b: seq<Token>)
    requires TheItems(w, a + b) == TheItems(v, a + b)
    ensures TheItems(w, a) == TheItems(v, a) && TheItems(w, b) == TheItems(v, b)
  {
    hide Named;
    ItemsConcat(v.strings, v.anchor, a, b);
    ItemsConcat(w.strings, w.anchor, a, b);
    SameParts(TheItems(v, a), TheItems(v, b), TheItems(w, a), TheItems(w, b));
  }

  lemma SizeNone()
    ensures Size([]) == 0
  {
  }

  lemma SameParts(a: seq<T.Item>, b: seq<T.Item>, c: seq<T.Item>, d: seq<T.Item>)
    requires a + b == c + d && |a| == |c|
    ensures a == c && b == d
  {
    assert a == (a + b)[..|a|] && b == (a + b)[|a|..];
  }

  lemma RepresentsSize(v: View, a: seq<Token>, b: seq<Token>)
    requires Represents(v, a + b)
    ensures Size(a) <= |v.structs|
  {
    hide Next, Length, Size;
    ReadsSplit(v.structs, a, b, Bytes(OF_DT_END));
  }

  /** Nothing one can see of the tree has changed. */
  ghost predicate SameTree(v: View, w: View, ts: seq<Token>) {
    && Represents(w, ts) && TheItems(w, ts) == TheItems(v, ts) && w.structs == v.structs && w.nodes == v.nodes
    && w.header == v.header && w.rsvmap == v.rsvmap
  }

  /** No tokens can be read from the structure up to an end tag with names for all properties. */
  ghost predicate Lost(v: View) {
    forall us :: !Represents(v, us)
  }

  /** Add a property at the current position.  If the string was written over the end of the structure, in a
    * buffer that stays where it is, then what is left afterwards is no structure. */
  method FtProp(c: Cxt, name: seq<byte>, data: seq<byte>, ghost a: seq<Token>, ghost b: seq<Token>) returns (ok: bool, ghost off: nat)
    requires c.Valid() && Represents(c.TheView(), a + b) && c.TheView().p == Size(a)
    requires IsString(name) && Small(c.TheView(), name) && |data| < 0x8000_0000
    requires CanName(c, name) || NamedOver(c, name)
    modifies c
    ensures c.Valid() && c.nodesUsed == old(c.nodesUsed) && |c.nodeTbl| == old(|c.nodeTbl|)
    ensures ok && old(CanName(c, name)) ==>
              Edited(old(c.TheView()), c.TheView(), a, [], [Prop(off, data)], b, [T.Prop(T.Property(name, data))])
    ensures ok && !old(CanName(c, name)) ==> Lost(c.TheView())
    ensures !ok && old(CanName(c, name)) ==> SameTree(old(c.TheView()), c.TheView(), a + b)
    ensures old(c.calls) <= c.calls && (ok <==> !c.Refused(old(c.calls), c.calls))
  {
    hide ViewOf, Wf, Represents, NameAt, HasName, Opened, Size, Named, Items, Reads, Gap, Put, FindString, Misplaced, Mapped, Lost;
    ghost var v, can := c.TheView(), CanName(c, name);
    ghost var gap := GapOf(c);
    off := 0;
    var offset;
    ok, offset := MapString(c, name, a + b);
    if !ok {
      NoChange(v, a + b);
      return;
    }
    off := offset;
    ghost var mid, v1 := c.calls, c.TheView();
    if can { MappedP(v, v1, a, b, name, offset); } else { MisplacedP(v, v1, a, b, name, gap, offset); }
    ok := AddProp(c, offset, data, Size(a));
    c.RefusedJoin(old(c.calls), mid, c.calls);
    if ok {
      if can { PropAdded(v, v1, c.TheView(), a, b, name, data, offset); } else { PropLost(v, v1, c.TheView(), a, b, name, data, offset, gap); }
    } else if can {
      MappedSame(v, v1, c.TheView(), a, b, name, offset);
    }
  }

  /** The string would go over the end of the structure, and the buffer is not moved for it. */
  ghost predicate NamedOver(c: Cxt, name: seq<byte>)
    reads c
  {
    |name| + 1 <= c.strings.start - c.bph && c.StaysPut()
  }

  lemma MappedP(v: View, v1: View, a: seq<Token>, b: seq<Token>, name: seq<byte>, off: nat)
    requires Mapped(v, v1, a + b, name, off) && Represents(v, a + b) && v.p == Size(a)
    ensures v1.p == Size(a) <= |v1.structs| && off < 0x1_0000_0000
  {
    hide Reads, Named, Size, Items, HasName, NameAt;
    RepresentsSize(v, a, b);
  }

  lemma MisplacedP(v: View, v1: View, a: seq<Token>, b: seq<Token>, name: seq<byte>, gap: int, off: nat)
    requires Misplaced(v, v1, name, gap, off) && Represents(v, a + b) && v.p == Size(a) == v1.p
    ensures v1.p == Size(a) <= |v1.structs| && off < 0x1_0000_0000
  {
    hide Reads, Named, Size, Overwritten, HasName;
    RepresentsSize(v, a, b);
  }

  lemma MappedSame(v: View, v1: View, w: View, a: seq<Token>, b: seq<Token>, name: seq<byte>, off: nat)
    requires Mapped(v, v1, a + b, name, off) && w == v1
    ensures SameTree(v, w, a + b)
  {
    hide Reads, Named, Items, HasName, NameAt;
  }

  /** After the mapped string, the property is in place. */
  lemma PropAdded(v: View, v1: View, w: View, a: seq<Token>, b: seq<Token>, name: seq<byte>, data: seq<byte>, off: nat)
    requires Mapped(v, v1, a + b, name, off) && |data| < 0x8000_0000 && Inserted(v1, w, Size(a), Encode(Prop(off, data)))
    ensures Edited(v, w, a, [], [Prop(off, data)], b, [T.Prop(T.Property(name, data))])
  {
    hide Represents, NameAt, HasName, Size, Named, Items, Reads, Gap, Put, Encode, Opened, Edited;
    var v2: View :| Opened(v1, v2, Structure, Size(a), |Encode(Prop(off, data))|) && Size(a) + |Encode(Prop(off, data))| <= |v2.structs|
                    && w == v2.(structs := Put(v2.structs, Size(a), Encode(Prop(off, data))), p := w.p);
    NewToken(v1, Prop(off, data), name, data);
    InsertIs(v, v1, v2, w, a, b, [Prop(off, data)], Encode(Prop(off, data)), [T.Prop(T.Property(name, data))]);
  }

  /** After a string written over the end of the structure, that end is lost still; or, if it came out as it
    * was, the property has no name. */
  lemma PropLost(v: View, v1: View, w: View, a: seq<Token>, b: seq<Token>, name: seq<byte>, data: seq<byte>, off: nat, gap: int)
    requires Represents(v, a + b) && IsString(name) && Misplaced(v, v1, name, gap, off)
    requires |data| < 0x8000_0000 && Inserted(v1, w, Size(a), Encode(Prop(off, data)))
    ensures Lost(w)
  {
    hide Represents, HasName, Size, Named, Reads, Put, Encode, EndsWell, Overwritten;
    var t := Prop(off, data);
    InsertedIs(v1, w, Size(a), Encode(t));
    LastOf(v, a + b);
    RepresentsSize(v, a, b);
    EndBelow(v, a, b);
    forall us ensures !Represents(w, us) {
      if Represents(w, us) {
        LastOf(w, us);
        EndKept(v1.structs, w.structs, Size(a), Encode(t));
        OverwrittenEnd(v, v1, a + b, name, gap);
        assert v1.structs == v.structs;
        NamelessLost(v, w, a, b, t, us);
      }
    }
  }

  /** Bytes have been put into a gap made at `at`. */
  ghost predicate Inserted(v: View, w: View, at: nat, code: seq<byte>) {
    exists v2: View :: Opened(v, v2, Structure, at, |code|) && at + |code| <= |v2.structs|
                       && w == v2.(structs := Put(v2.structs, at, code), p := w.p)
  }

  lemma InsertedIs(v: View, w: View, at: nat, code: seq<byte>)
    requires Inserted(v, w, at, code)
    ensures at <= |v.structs| && w.structs == v.structs[..at] + code + v.structs[at..] && w.strings == v.strings && w.anchor == v.anchor
  {
    hide Put, Gap;
    var v2: View :| Opened(v, v2, Structure, at, |code|) && at + |code| <= |v2.structs|
                    && w == v2.(structs := Put(v2.structs, at, code), p := w.p);
    GapFill(v.structs, v2.structs, at, code);
    GapInside(v.structs, v2.structs, at, |code|);
  }

  lemma GapInside(a: seq<byte>, b: seq<byte>, at: nat, n: int)
    requires Gap(a, b, at, n)
    ensures at <= |a|
  {
  }

  /** The position is before the end tag. */
  lemma EndBelow(v: View, a: seq<Token>, b: seq<Token>)
    requires Represents(v, a + b)
    ensures Size(a) + 4 <= |v.structs|
  {
    hide Reads, Named, Size, Bytes;
    ReadsRest(v.structs, a + b, Bytes(OF_DT_END));
    SizeConcat(a, b);
    EndIs();
  }

  /** What comes last stays last. */
  lemma EndKept(s: seq<byte>, t: seq<byte>, at: nat, code: seq<byte>)
    requires at + 4 <= |s| && t == s[..at] + code + s[at..]
    ensures EndsWell(t) <==> EndsWell(s)
  {
    assert t[|t| - 1] == s[|s| - 1] && t[|t| - 2] == s[|s| - 2];
  }

  lemma OverwrittenEnd(v: View, w: View, ts: seq<Token>, name: seq<byte>, gap: int)
    requires Represents(v, ts) && IsString(name) && Overwritten(v, w, name, gap) && EndsWell(w.structs)
    ensures w.structs == v.structs
  {
    hide Represents;
    LastOf(v, ts);
    LastWritten(v.structs, w.structs, name, gap);
  }

  /** A structure reads as one sequence of tokens only; so if one of them has no name, it is lost. */
  lemma NamelessLost(v: View, w: View, a: seq<Token>, b: seq<Token>, t: Token, us: seq<Token>)
    requires Represents(v, a + b) && Writable(t) && t.Prop? && !HasName(w.strings, w.anchor + Signed(t.off))
    requires Size(a) <= |v.structs| && w.structs == v.structs[..Size(a)] + Encode(t) + v.structs[Size(a)..]
    ensures !Represents(w, us)
  {
    hide Named, Size, Reads, Encode, HasName;
    assert a + [] + b == a + b && a + [] == a;
    EncodeReads(t);
    ReadsSplice(v.structs, a, [], [t], Encode(t), b, Bytes(OF_DT_END));
    if Represents(w, us) {
      OneReading(w.structs, a + [t] + b, us);
      assert us[|a|] == t;
      NamedAt(w.strings, w.anchor, us, |a|);
    }
  }

  lemma NamedAt(strings: seq<byte>, anchor: int, ts: seq<Token>, i: nat)
    requires Named(strings, anchor, ts) && i < |ts| && ts[i].Prop?
    ensures HasName(strings, anchor + Signed(ts[i].off))
  {
  }

  lemma {:induction false} OneReading(s: seq<byte>, ts: seq<Token>, us: seq<Token>)
    requires Reads(s, ts, Bytes(OF_DT_END)) && Reads(s, us, Bytes(OF_DT_END))
    ensures ts == us
    decreases |ts|
  {
    hide Next, Length, Bytes;
    EndStops();
    if |ts| > 0 && |us| > 0 {
      OneReading(s[Length(ts[0])..], ts[1..], us[1..]);
      assert ts == [ts[0]] + ts[1..] && us == [us[0]] + us[1..];
    }
  }

  /** Add a property whose name has been mapped. */
  method AddProp(c: Cxt, offset: nat, data: seq<byte>, ghost at: nat) returns (ok: bool)
    requires c.Valid() && c.TheView().p == at <= |c.TheView().structs| && offset < 0x1_0000_0000 && |data| < 0x8000_0000
    modifies c
    ensures c.Valid() && c.nodesUsed == old(c.nodesUsed) && |c.nodeTbl| == old(|c.nodeTbl|)
    ensures ok ==> Inserted(old(c.TheView()), c.TheView(), at, Encode(Prop(offset, data)))
    ensures !ok ==> c.TheView() == old(c.TheView())
    ensures old(c.calls) <= c.calls && (ok <==> !c.Refused(old(c.calls), c.calls))
  {
    hide ViewOf, Wf, Opened, Put, Encode;
    ghost var v1 := c.TheView();
    var len := 12 + Align4(|data|);
    CanInsert(c, at, len);
    var q;
    ghost var shift;
    ok, q, shift := c.MakeSpace(c.p, Structure, len);
    if !ok {
      return;
    }
    ghost var v2 := c.TheView();
    RoomMade(c, v1, at, len, q);
    c.p := q;
    PutProp(c, offset, data);
  }

  /** Room can be asked for at the current position. */
  lemma CanInsert(c: Cxt, at: nat, len: nat)
    requires c.Valid() && c.TheView().p == at <= |c.TheView().structs|
    ensures c.CanOpen(c.p, Structure, len) && c.p - c.structs.start == at
  {
    StructIs(c.TheLayout());
  }

  /** With the current position at the room made, it can be written to. */
  lemma RoomMade(c: Cxt, v: View, at: nat, len: nat, q: int)
    requires c.Valid() && at <= |v.structs| && Opened(v, c.TheView(), Structure, at, len)
    requires q == c.structs.start + at
    ensures at + len <= |c.TheView().structs|
    ensures var l := c.TheLayout().(p := q);
            && Wf(l) && (c.isordered ==> InOrder(l)) && ViewOf(l) == c.TheView().(p := at)
  {
    hide Content, Shift;
    MoveP(c.TheLayout(), q - c.p);
    StructIs(c.TheLayout());
  }

  /** The token of a property. */
  lemma NewToken(v: View, t: Token, name: seq<byte>, data: seq<byte>)
    requires t.Prop? && t.data == data && Writable(t)
    requires HasName(v.strings, v.anchor + Signed(t.off)) && NameAt(v.strings, v.anchor + Signed(t.off)) == name
    ensures Named(v.strings, v.anchor, [t]) && TheItems(v, [t]) == [T.Prop(T.Property(name, data))]
    ensures (forall x :: Reads(Encode(t) + x, [t], x)) && |Encode(t)| == Size([t])
  {
    hide HasName, NameAt, Encode, Signed;
    EncodeReads(t);
  }

  // ----- Setting a property

  ghost predicate StartsNode(ts: seq<Token>, off: int) {
    exists m: nat :: IsNode(ts, off, m)
  }

  /** Every node handed out starts a node. */
  ghost predicate Handles(v: View, ts: seq<Token>) {
    forall i :: 0 <= i < |v.nodes| ==> StartsNode(ts, v.nodes[i])
  }

  /** What `ft_next` finds at a token. */
  lemma AtomAt(s: seq<byte>, ts: seq<Token>, k: nat)
    requires Reads(s, ts, Bytes(OF_DT_END)) && k <= |ts|
    ensures Size(ts[..k]) <= |s|
    ensures Next(s[Size(ts[..k])..]) == if k < |ts| then Token(ts[k], Length(ts[k])) else Stop
  {
    hide Next, Length, Size;
    assert ts[..k] + ts[k..] == ts;
    ReadsSplit(s, ts[..k], ts[k..], Bytes(OF_DT_END));
    if k == |ts| {
      EndStops();
    } else {
      ReadsHead(s[Size(ts[..k])..], ts[k..], Bytes(OF_DT_END));
    }
  }

  lemma StructReads(v: View, ts: seq<Token>)
    requires Represents(v, ts)
    ensures Reads(v.structs, ts, Bytes(OF_DT_END))
  {
    hide Reads, Named;
  }

  lemma EndStops()
    ensures Next(Bytes(OF_DT_END)) == Stop
  {
    var s := Bytes(OF_DT_END);
    assert s[..4] == s;
  }

  lemma ReadsHead(s: seq<byte>, ts: seq<Token>, rest: seq<byte>)
    requires Reads(s, ts, rest) && |ts| > 0
    ensures Next(s) == Token(ts[0], Length(ts[0]))
  {
  }

  /** The token at address `p`, and the address of the next; none at the end. */
  method FtNext(c: Cxt, p: int, ghost ts: seq<Token>, ghost k: nat) returns (more: bool, next: int, t: Token)
    requires c.Valid() && Reads(c.TheView().structs, ts, Bytes(OF_DT_END)) && k <= |ts| && p == c.structs.start + Size(ts[..k])
    ensures more == (k < |ts|)
    ensures more ==> t == ts[k] && next == c.structs.start + Size(ts[..k + 1])
  {
    hide Next, Length, Size, Reads, Bytes, Wf, InOrder;
    WfStructs(c.TheLayout());
    AtomAt(c.TheView().structs, ts, k);
    next, t := 0, Nop;
    if p >= c.structs.End() {
      NextNothing();
      return false, next, t;
    }
    var s := c.blob[c.structs.start - c.bph..c.structs.End() - c.bph][p - c.structs.start..];
    match Next(s) {
      case Token(token, len) =>
        more, next, t := true, p + len, token;
        SizeAt(ts, k, k + 1);
        SizeOne(ts, k);
      case _ =>
        more := false;
    }
  }

  lemma NextNothing()
    ensures Next([]) == Bad
  {
  }

  lemma SizeOne(ts: seq<Token>, k: nat)
    requires k < |ts|
    ensures Size(ts[k..k + 1]) == Length(ts[k])
  {
    assert ts[k..k + 1] == [ts[k]];
    assert [ts[k]][1..] == [];
  }

  lemma WfStructs(l: Layout)
    requires Wf(l)
    ensures l.bph <= l.structs.start <= l.structs.End() <= l.bph + |l.blob|
    ensures ViewOf(l).structs == l.blob[l.structs.start - l.bph..l.structs.End() - l.bph]
  {
  }

  /** A property's value is replaced by `data`. */
  lemma OverwriteIs(v: View, v2: View, w: View, a: seq<Token>, t: Token, data: seq<byte>, b: seq<Token>)
    requires Represents(v, a + [t] + b) && t.Prop? && |data| < 0x8000_0000
    requires var at, n := Size(a) + 12, Align4(|data|) - Align4(|t.data|);
             && (if n == 0 then v2 == v.(p := v2.p) else Opened(v, v2, Structure, at, n))
             && at + Align4(|data|) <= |v2.structs|
             && w == v2.(structs := Put(Put(v2.structs, at - 8, Bytes(|data|)), at, data + Padding(Align4(|data|) - |data|)), p := w.p)
    ensures Size(a + [t]) <= |v.structs| && Size(a) <= Size(a + [t])
    ensures t.off < 0x1_0000_0000
    ensures w.structs == v.structs[..Size(a)] + Encode(Prop(t.off, data)) + v.structs[Size(a + [t])..]
  {
    hide Named, Put, Size, Reads, Bytes, Word, Gap, Encode;
    var s, at, n := v.structs, Size(a) + 12, Align4(|data|) - Align4(|t.data|);
    var full := data + Padding(Align4(|data|) - |data|);
    PropBytes(v, a, t, b);
    if n == 0 { GapAnywhere(s, at); }
    GapPut(s, v2.structs, at, n, at - 8, Bytes(|data|));
    GapOver(Put(s, at - 8, Bytes(|data|)), Put(v2.structs, at - 8, Bytes(|data|)), at, n, Align4(|t.data|), full);
    Assemble(s, Size(a), Bytes(OF_DT_PROP), Bytes(|data|), Bytes(t.off), full, Align4(|t.data|));
    EncodeProp(t.off, data);
  }

  lemma GapAnywhere(s: seq<byte>, at: nat)
    requires at <= |s|
    ensures Gap(s, s, at, 0)
  {
  }

  /** The words of a property token in the structure. */
  lemma PropBytes(v: View, a: seq<Token>, t: Token, b: seq<Token>)
    requires Represents(v, a + [t] + b) && t.Prop?
    ensures Size(a + [t]) == Size(a) + 12 + Align4(|t.data|) <= |v.structs|
    ensures v.structs[Size(a)..Size(a) + 4] == Bytes(OF_DT_PROP)
    ensures t.off < 0x1_0000_0000 && v.structs[Size(a) + 8..Size(a) + 12] == Bytes(t.off)
  {
    hide Named, Bytes, Word, Reads;
    var s := v.structs;
    SizeConcat(a, [t]);
    assert [t][1..] == [];
    RepresentsSize(v, a + [t], b);
    assert (a + [t] + b)[|a|] == t;
    assert (a + [t] + b)[..|a|] == a;
    StructReads(v, a + [t] + b);
    AtomAt(s, a + [t] + b, |a|);
    var u := s[Size(a)..];
    SliceOf(s, Size(a), 0, 4);
    SliceOf(s, Size(a), 8, 12);
    assert u[0..4] == u[..4];
    WordBytes(u[..4]);
    WordBytes(u[8..12]);
  }

  lemma SliceOf(s: seq<byte>, k: nat, i: nat, j: nat)
    requires i <= j && k + j <= |s|
    ensures s[k..][i..j] == s[k + i..k + j]
  {
  }

  lemma Assemble(s: seq<byte>, k: nat, tag: seq<byte>, size: seq<byte>, off: seq<byte>, full: seq<byte>, olds: nat)
    requires |tag| == |size| == |off| == 4 && k + 12 + olds <= |s| && s[k..k + 4] == tag && s[k + 8..k + 12] == off
    ensures var x := Put(s, k + 4, size);
            x[..k + 12] + full + x[k + 12 + olds..] == s[..k] + (tag + size + off + full) + s[k + 12 + olds..]
  {
    var x := Put(s, k + 4, size);
    assert x[..k + 12] == s[..k] + tag + size + off;
    assert x[k + 12 + olds..] == s[k + 12 + olds..];
  }

  lemma EncodeProp(off: nat, data: seq<byte>)
    requires Writable(Prop(off, data))
    ensures Encode(Prop(off, data)) == Bytes(OF_DT_PROP) + Bytes(|data|) + Bytes(off) + (data + Padding(Align4(|data|) - |data|))
  {
    hide Bytes;
  }

  /** No node starts inside a property. */
  lemma NoNodeInside(v: View, a: seq<Token>, t: Token, b: seq<Token>, from: int, to: int)
    requires Handles(v, a + [t] + b) && Size(a) < from && to <= Size(a) + Length(t)
    ensures forall i :: 0 <= i < |v.nodes| ==> !(from <= v.nodes[i] < to)
  {
    hide Size, Begins, Length;
    var ts := a + [t] + b;
    forall i | 0 <= i < |v.nodes| ensures !(from <= v.nodes[i] < to) {
      var m: nat :| IsNode(ts, v.nodes[i], m);
      var j := NodeElim(ts, v.nodes[i], m);
      assert ts[..|a|] == a && ts[|a|] == t;
      if j <= |a| {
        SizeAt(ts, j, |a|);
      } else {
        SizeAt(ts, |a|, j);
      }
    }
  }

  /** Make `q` the current position. */
  method SetPosition(c: Cxt, q: int)
    requires c.Valid()
    modifies c`p
    ensures c.Valid() && c.TheView() == old(c.TheView()).(p := q - c.structs.start) && c.p == q
  {
    MoveP(c.TheLayout(), q - c.p);
    StructIs(c.TheLayout());
    c.p := q;
  }

  lemma CanReplace(c: Cxt, a: seq<Token>, t: Token, b: seq<Token>, q: int, n: int)
    requires c.Valid() && Represents(c.TheView(), a + [t] + b) && Handles(c.TheView(), a + [t] + b)
    requires t.Prop? && q == c.structs.start + Size(a) + 12 && n >= 0 - Align4(|t.data|)
    ensures c.CanOpen(q, Structure, n) && Size(a) + 12 + Align4(|t.data|) <= |c.TheView().structs|
  {
    hide Reads, Named, Size, Handles, Represents;
    PropBytes(c.TheView(), a, t, b);
    NoNodeInside(c.TheView(), a, t, b, Size(a) + 12, Size(a) + 12 - n);
    StructIs(c.TheLayout());
    NodesAre(c);
  }

  lemma NodesAre(c: Cxt)
    requires c.Valid()
    ensures |c.TheView().nodes| == c.nodesUsed - 1
    ensures forall i :: 1 <= i < c.nodesUsed ==> c.nodeTbl[i] == c.TheView().nodes[i - 1] + c.structs.start
  {
  }

  /** A property replaced. */
  lemma ReplaceIs(v: View, v2: View, w: View, a: seq<Token>, t: Token, data: seq<byte>, b: seq<Token>)
    requires Represents(v, a + [t] + b) && t.Prop? && |data| < 0x8000_0000
    requires var at, n := Size(a) + 12, Align4(|data|) - Align4(|t.data|);
             && (if n == 0 then v2 == v.(p := v2.p) else Opened(v, v2, Structure, at, n))
             && at + Align4(|data|) <= |v2.structs|
             && w == v2.(structs := Put(Put(v2.structs, at - 8, Bytes(|data|)), at, data + Padding(Align4(|data|) - |data|)), p := w.p)
    ensures t.off < 0x1_0000_0000
    ensures Edited(v, w, a, [t], [Prop(t.off, data)], b, TheItems(v, [Prop(t.off, data)]))
  {
    hide Reads, Items, Put, Size, Begins, NodesKept, Gap, Represents, Encode, HasName, Signed;
    var u, n := Prop(t.off, data), Align4(|data|) - Align4(|t.data|);
    OverwriteIs(v, v2, w, a, t, data, b);
    EncodeReads(u);
    NamedSame(v, a, t, b, data);
    Spliced(v, w, a, [t], [u], Encode(u), b);
    SizeOf(t);
    SizeOf(u);
    BumpKeeps(v.nodes, a, [t], [u], b, Size(a) + 12);
    if n == 0 { BumpNone(v.nodes, Size(a) + 12); }
  }

  lemma SizeOf(t: Token)
    requires t.Prop?
    ensures Size([t]) == 12 + Align4(|t.data|) && Begins([t]) == 0
  {
    assert [t][1..] == [];
    assert [t][..0] == [];
  }

  lemma NamedSame(v: View, a: seq<Token>, t: Token, b: seq<Token>, data: seq<byte>)
    requires Represents(v, a + [t] + b) && t.Prop?
    ensures Named(v.strings, v.anchor, [Prop(t.off, data)])
  {
    hide Reads, HasName, Signed;
    assert (a + [t] + b)[|a|] == t;
  }

  /** Replace the value of a property. */
  method Overwrite(c: Cxt, data: seq<byte>, q: int, ghost a: seq<Token>, t: Token, ghost b: seq<Token>) returns (ok: bool)
    requires c.Valid() && Represents(c.TheView(), a + [t] + b) && Handles(c.TheView(), a + [t] + b)
    requires t.Prop? && q == c.structs.start + Size(a) + 12 && |data| < 0x8000_0000
    modifies c
    ensures c.Valid() && c.nodesUsed == old(c.nodesUsed) && |c.nodeTbl| == old(|c.nodeTbl|)
    ensures ok ==> t.off < 0x1_0000_0000
                   && Edited(old(c.TheView()), c.TheView(), a, [t], [Prop(t.off, data)], b,
                             TheItems(old(c.TheView()), [Prop(t.off, data)]))
    ensures !ok ==> SameTree(old(c.TheView()), c.TheView(), a + [t] + b)
    ensures old(c.calls) <= c.calls && (ok <==> !c.Refused(old(c.calls), c.calls))
  {
    hide ViewOf, Wf, Represents, Opened, Size, Items, Put, Handles, Edited, Gap;
    ghost var v := c.TheView();
    var n := Align4(|data|) - Align4(|t.data|);
    SetPosition(c, q);
    ghost var v2 := c.TheView();
    SameButP(v, v2, a + [t] + b);
    CanReplace(c, a, t, b, q, n);
    c.RefusedNone(c.calls);
    if n != 0 {
      var q';
      ghost var shift;
      ok, q', shift := c.MakeSpace(c.p, Structure, n);
      if !ok {
        return;
      }
      OpenedFrom(v, v2, c.TheView(), Structure, Size(a) + 12, n);
      v2 := c.TheView();
      SetPosition(c, q');
    }
    RoomThere(v, v2, Size(a) + 12, n, Align4(|t.data|), Align4(|data|));
    PutAt(c, 0 - 8, Bytes(|data|), 0);
    PutBin(c, data);
    ReplaceIs(v, v2, c.TheView(), a, t, data, b);
    ok := true;
  }

  lemma SameButP(v: View, w: View, ts: seq<Token>)
    requires Represents(v, ts) && Handles(v, ts) && w == v.(p := w.p)
    ensures Represents(w, ts) && Handles(w, ts) && SameTree(v, w, ts)
  {
    hide Reads, Named;
    assert w.nodes == v.nodes;
  }

  lemma RoomThere(v: View, v2: View, at: nat, n: int, olds: nat, news: nat)
    requires if n == 0 then v2 == v.(p := v2.p) else Opened(v, v2, Structure, at, n)
    requires news == olds + n && at + olds <= |v.structs|
    ensures at + news <= |v2.structs|
  {
  }

  /** A property of that name, or the end of a node's properties. */
  predicate StopsAt(x: T.Item, name: seq<byte>) {
    x.Open? || x.Close? || (x.Prop? && x.prop.name == name)
  }

  /** Parts of a sequence without its first element. */
  lemma FirstOff(xs: seq<T.Item>, k: nat)
    requires 0 < k <= |xs|
    ensures xs[..k] == [xs[0]] + xs[1..][..k - 1] && xs[..k][1..] == xs[1..][..k - 1] && xs[1..][k - 1..] == xs[k..]
    ensures k < |xs| ==> xs[1..][k..] == xs[k + 1..]
  {
    var ys := [xs[0]] + xs[1..][..k - 1];
    forall i | 0 <= i < k ensures xs[..k][i] == ys[i] { }
    assert xs[..k] == ys;
  }

  /** Setting a property where the search for it stops. */
  lemma {:induction false} SetItemsStops(xs: seq<T.Item>, k: nat, p: T.Property)
    requires k < |xs| && StopsAt(xs[k], p.name) && forall i :: 0 <= i < k ==> !StopsAt(xs[i], p.name)
    ensures T.SetItems(xs, p) == if xs[k].Prop? then xs[..k] + [T.Prop(p)] + xs[k + 1..] else xs[..k] + [T.Prop(p)] + xs[k..]
  {
    if k > 0 {
      hide StopsAt, T.SetItems;
      var x, ys := xs[0], xs[1..];
      forall i | 0 <= i < k - 1 ensures !StopsAt(ys[i], p.name) {
        assert ys[i] == xs[i + 1];
      }
      SetItemsStops(ys, k - 1, p);
      SetItemsPast(xs, p);
      FirstOff(xs, k);
      Assoc([x], ys[..k - 1], [T.Prop(p)], xs[k + 1..]);
      Assoc([x], ys[..k - 1], [T.Prop(p)], xs[k..]);
    }
  }

  lemma SetItemsPast(xs: seq<T.Item>, p: T.Property)
    requires |xs| > 0 && !StopsAt(xs[0], p.name)
    ensures T.SetItems(xs, p) == [xs[0]] + T.SetItems(xs[1..], p)
  {
  }

  lemma Assoc(a: seq<T.Item>, b: seq<T.Item>, c: seq<T.Item>, d: seq<T.Item>)
    ensures a + (b + c + d) == a + b + c + d
  {
  }

  /** Setting a property of a node that starts at item `j`. */
  lemma {:induction false} SetItemsAtNode(xs: seq<T.Item>, j: nat, m: nat, p: T.Property)
    requires j < |xs| && xs[j].Open? && Opens(xs[..j]) == m
    ensures T.SetItemsAt(xs, m, p) == xs[..j + 1] + T.SetItems(xs[j + 1..], p)
  {
    if j > 0 {
      hide T.SetItems, Opens;
      OpensFirst(xs[..j]);
      FirstOff(xs, j);
      FirstOff(xs, j + 1);
      SetItemsAtNode(xs[1..], j - 1, if xs[0].Open? then m - 1 else m, p);
    }
  }

  /** The number of nodes that start among some items. */
  function Opens(xs: seq<T.Item>): nat {
    if |xs| == 0 then 0 else Opens(xs[..|xs| - 1]) + if xs[|xs| - 1].Open? then 1 else 0
  }

  lemma {:induction false} OpensFirst(xs: seq<T.Item>)
    requires |xs| > 0
    ensures Opens(xs) == Opens(xs[1..]) + if xs[0].Open? then 1 else 0
  {
    if |xs| > 1 {
      OpensFirst(xs[..|xs| - 1]);
      assert xs[..|xs| - 1][1..] == xs[1..][..|xs| - 2];
    }
  }

  lemma {:induction false} OpensBegins(v: View, ts: seq<Token>)
    ensures Opens(TheItems(v, ts)) == Begins(ts)
  {
    if |ts| > 0 {
      OpensBegins(v, ts[..|ts| - 1]);
      assert TheItems(v, ts)[..|ts| - 1] == TheItems(v, ts[..|ts| - 1]);
    }
  }

  /** Setting a property of the node that starts at item `j`, when the search for it stops at item `k`. */
  lemma SetItemsMeans(xs: seq<T.Item>, j: nat, k: nat, m: nat, p: T.Property)
    requires j < k < |xs| && xs[j].Open? && Opens(xs[..j]) == m
    requires StopsAt(xs[k], p.name) && forall i :: j < i < k ==> !StopsAt(xs[i], p.name)
    ensures T.SetItemsAt(xs, m, p) == if xs[k].Prop? then xs[..k] + [T.Prop(p)] + xs[k + 1..] else xs[..k] + [T.Prop(p)] + xs[k..]
  {
    hide T.SetItemsAt, T.SetItems, Opens, StopsAt;
    var ys, n := xs[j + 1..], k - j - 1;
    forall i | 0 <= i < n ensures !StopsAt(ys[i], p.name) {
      assert ys[i] == xs[j + 1 + i];
    }
    SetItemsStops(ys, n, p);
    SetItemsAtNode(xs, j, m, p);
    Regroup(xs, j, k, p);
  }

  /** The search for a property stops at token `k`: what setting it means for the items. */
  lemma SetMeans(v: View, ts: seq<Token>, j: nat, k: nat, m: nat, p: T.Property)
    requires j < k < |ts| && ts[j].Begin? && Begins(ts[..j]) == m
    requires StopsAt(TheItems(v, ts)[k], p.name) && forall i :: j < i < k ==> !StopsAt(TheItems(v, ts)[i], p.name)
    ensures T.SetItemsAt(TheItems(v, ts), m, p) ==
            if ts[k].Prop? then TheItems(v, ts[..k]) + [T.Prop(p)] + TheItems(v, ts[k + 1..])
            else TheItems(v, ts[..k]) + [T.Prop(p)] + TheItems(v, ts[k..])
  {
    hide Items, Begins, Opens, StopsAt, T.SetItemsAt;
    SameKinds(v, ts, j);
    SameKinds(v, ts, k);
    ItemsSlice(v, ts, 0, j);
    OpensBegins(v, ts[..j]);
    SetItemsMeans(TheItems(v, ts), j, k, m, p);
    ItemsSlice(v, ts, 0, k);
    ItemsSlice(v, ts, k, |ts|);
    ItemsSlice(v, ts, k + 1, |ts|);
  }

  lemma SameKinds(v: View, ts: seq<Token>, k: nat)
    requires k < |ts|
    ensures |TheItems(v, ts)| == |ts|
    ensures TheItems(v, ts)[k].Open? == ts[k].Begin? && TheItems(v, ts)[k].Close? == ts[k].EndNode?
    ensures TheItems(v, ts)[k].Prop? == ts[k].Prop?
  {
  }

  lemma ItemsSlice(v: View, ts: seq<Token>, i: nat, j: nat)
    requires i <= j <= |ts|
    ensures TheItems(v, ts)[i..j] == TheItems(v, ts[i..j])
    ensures i == 0 ==> TheItems(v, ts)[..j] == TheItems(v, ts[..j])
    ensures j == |ts| ==> TheItems(v, ts)[i..] == TheItems(v, ts[i..])
  {
    hide ItemOf;
    var xs, ys := TheItems(v, ts)[i..j], TheItems(v, ts[i..j]);
    forall k | 0 <= k < j - i ensures xs[k] == ys[k] {
      assert ts[i..j][k] == ts[i + k];
    }
    assert i == 0 ==> ts[i..j] == ts[..j];
    assert j == |ts| ==> ts[i..j] == ts[i..];
    assert TheItems(v, ts)[i..j] == ys;
  }

  lemma Regroup(xs: seq<T.Item>, j: nat, k: nat, p: T.Property)
    requires j < k < |xs|
    ensures var ys, i := xs[j + 1..], k - j - 1;
            && xs[..j + 1] + (ys[..i] + [T.Prop(p)] + ys[i + 1..]) == xs[..k] + [T.Prop(p)] + xs[k + 1..]
            && xs[..j + 1] + (ys[..i] + [T.Prop(p)] + ys[i..]) == xs[..k] + [T.Prop(p)] + xs[k..]
  {
  }

  /** The name of a property. */
  method PropName(c: Cxt, off: nat) returns (name: seq<byte>)
    requires c.Valid()
    ensures name == NameAt(c.TheView().strings, c.TheView().anchor + Signed(off))
  {
    hide NameAt, Wf;
    WfStrings(c.TheLayout());
    AnchorIs(c.TheLayout());
    var str := c.blob[c.strings.start - c.bph..c.strings.End() - c.bph];
    name := NameAt(str, c.strAnchor - c.strings.start + Signed(off));
  }

  /** The address of a node handed out. */
  method NodeOf(c: Cxt, ph: nat) returns (found: bool, node: int)
    requires c.Valid()
    ensures found == (1 <= ph < c.nodesUsed)
    ensures |c.TheView().nodes| == c.nodesUsed - 1
    ensures found ==> node == c.nodeTbl[ph] == c.structs.start + c.TheView().nodes[ph - 1]
  {
    NodesAre(c);
    found := 1 <= ph < c.nodesUsed;
    node := if found then c.nodeTbl[ph] else 0;
  }

  /** A property of node number `m` has been set. */
  ghost predicate PropSet(v: View, w: View, ts: seq<Token>, ts': seq<Token>, m: nat, p: T.Property) {
    && w.header == v.header && w.rsvmap == v.rsvmap
    && Represents(w, ts') && TheItems(w, ts') == T.SetItemsAt(TheItems(v, ts), m, p)
    && NodesKept(v.nodes, w.nodes, ts, ts', 0, 0)
  }

  lemma InsertSets(v: View, w: View, ts: seq<Token>, j: nat, k: nat, m: nat, off: nat, p: T.Property)
    requires j < k < |ts| && ts[j].Begin? && Begins(ts[..j]) == m && !ts[k].Prop?
    requires StopsAt(TheItems(v, ts)[k], p.name) && forall i :: j < i < k ==> !StopsAt(TheItems(v, ts)[i], p.name)
    requires Edited(v, w, ts[..k], [], [Prop(off, p.data)], ts[k..], [T.Prop(p)])
    ensures PropSet(v, w, ts, ts[..k] + [Prop(off, p.data)] + ts[k..], m, p)
  {
    hide Represents, NodesKept, Items;
    SetMeans(v, ts, j, k, m, p);
    assert ts[..k] + [] + ts[k..] == ts;
    SizeOf(Prop(off, p.data));
    NodesKeptAnywhere(v.nodes, w.nodes, ts, ts[..k] + [Prop(off, p.data)] + ts[k..], Begins(ts[..k]));
  }

  lemma NodesKeptAnywhere(nodes: seq<int>, nodes': seq<int>, ts: seq<Token>, ts': seq<Token>, from: nat)
    requires NodesKept(nodes, nodes', ts, ts', from, 0)
    ensures NodesKept(nodes, nodes', ts, ts', 0, 0)
  {
    hide IsNode;
  }

  lemma OverwriteSets(v: View, w: View, ts: seq<Token>, j: nat, k: nat, m: nat, p: T.Property)
    requires j < k < |ts| && ts[j].Begin? && Begins(ts[..j]) == m && ts[k].Prop?
    requires StopsAt(TheItems(v, ts)[k], p.name) && forall i :: j < i < k ==> !StopsAt(TheItems(v, ts)[i], p.name)
    requires Edited(v, w, ts[..k], [ts[k]], [Prop(ts[k].off, p.data)], ts[k + 1..], TheItems(v, [Prop(ts[k].off, p.data)]))
    ensures PropSet(v, w, ts, ts[..k] + [Prop(ts[k].off, p.data)] + ts[k + 1..], m, p)
  {
    hide Represents, NodesKept, NameAt, Items, StopsAt, Size, Begins, T.SetItemsAt;
    SetMeans(v, ts, j, k, m, p);
    assert ts[..k] + [ts[k]] + ts[k + 1..] == ts;
    SizeOf(Prop(ts[k].off, p.data));
    NodesKeptAnywhere(v.nodes, w.nodes, ts, ts[..k] + [Prop(ts[k].off, p.data)] + ts[k + 1..], Begins(ts[..k]));
    SameName(v, ts, k, p);
  }

  /** A property with the name it had. */
  lemma SameName(v: View, ts: seq<Token>, k: nat, p: T.Property)
    requires k < |ts| && ts[k].Prop? && StopsAt(TheItems(v, ts)[k], p.name)
    ensures TheItems(v, [Prop(ts[k].off, p.data)]) == [T.Prop(p)]
  {
    hide NameAt, Signed;
    assert TheItems(v, ts)[k] == ItemOf(v.strings, v.anchor, ts[k]);
  }

  /** The properties of node number `m` have an end, or one of them has that name. */
  ghost predicate Searchable(v: View, ts: seq<Token>, m: nat, name: seq<byte>) {
    exists j: nat, k: nat :: Stopped(v, ts, j, k, m, name)
  }

  /** One of them has that name. */
  ghost predicate HasProp(v: View, ts: seq<Token>, m: nat, name: seq<byte>) {
    exists j: nat, k: nat :: Stopped(v, ts, j, k, m, name) && ts[k].Prop?
  }

  /** A search stops at one place only. */
  lemma StoppedOnce(v: View, ts: seq<Token>, m: nat, name: seq<byte>, j: nat, k: nat)
    requires j < |ts| && ts[j].Begin? && Begins(ts[..j]) == m && j < k <= |ts|
    requires forall i :: j < i < k ==> !StopsAt(TheItems(v, ts)[i], name)
    ensures k == |ts| ==> !Searchable(v, ts, m, name)
    ensures k < |ts| && StopsAt(TheItems(v, ts)[k], name) ==> Stopped(v, ts, j, k, m, name) && Searchable(v, ts, m, name)
    ensures k < |ts| && StopsAt(TheItems(v, ts)[k], name) ==> (HasProp(v, ts, m, name) <==> ts[k].Prop?)
  {
    hide Items, StopsAt, Begins;
    forall j': nat, k': nat | Stopped(v, ts, j', k', m, name)
      ensures k < |ts| && j' == j && (StopsAt(TheItems(v, ts)[k], name) ==> k' == k)
    {
      if j < j' { BeginsAt(ts, j, j'); } else if j' < j { BeginsAt(ts, j', j); }
    }
  }

  /** Set a property of a node handed out.  That succeeds exactly if there is such a node, its
    * properties have an end, and the allocator does not fail.  On success the flattened tree is the
    * old one with just that property set, and all nodes handed out are still the same; unless the name is
    * new and its string went over the end of the structure.  Then there is no structure any more. */
  method SetProp(c: Cxt, ph: nat, name: seq<byte>, data: seq<byte>, ghost ts: seq<Token>, ghost m: nat)
    returns (ok: bool, ghost ts': seq<Token>)
    requires c.Valid() && Represents(c.TheView(), ts) && Handles(c.TheView(), ts)
    requires 1 <= ph < c.nodesUsed ==> IsNode(ts, c.nodeTbl[ph] - c.structs.start, m)
    requires IsString(name) && Small(c.TheView(), name) && |data| < 0x8000_0000
    requires CanName(c, name) || HasProp(c.TheView(), ts, m, name) || NamedOver(c, name)
    modifies c
    ensures c.Valid() && c.nodesUsed == old(c.nodesUsed) && |c.nodeTbl| == old(|c.nodeTbl|)
    ensures old(CanName(c, name) || HasProp(c.TheView(), ts, m, name)) ==>
              if ok then PropSet(old(c.TheView()), c.TheView(), ts, ts', m, T.Property(name, data))
              else SameTree(old(c.TheView()), c.TheView(), ts)
    ensures ok && !old(CanName(c, name) || HasProp(c.TheView(), ts, m, name)) ==> Lost(c.TheView())
    ensures old(c.calls) <= c.calls
    ensures ok <==> 1 <= ph < c.nodesUsed && old(Searchable(c.TheView(), ts, m, name)) && !c.Refused(old(c.calls), c.calls)
  {
    hide ViewOf, Wf, Represents, Size, Items, Handles, NameAt, HasName, Begins, Edited, FindString, StopsAt, Signed, PropSet, Reads, InOrder, Searchable, HasProp, Stopped, Lost;
    ghost var v, can := c.TheView(), CanName(c, name);
    ts' := ts;
    NoChange(v, ts);
    c.RefusedNone(c.calls);
    StructReads(v, ts);
    var found, node := NodeOf(c, ph);
    if !found {
      return false, ts';
    }
    ghost var j := NodeElim(ts, c.nodeTbl[ph] - c.structs.start, m);
    var more, at, t := FtNext(c, node, ts, j);
    ghost var k := j + 1;
    while true
      invariant c.Valid() && c.TheView() == v && j < k <= |ts| && at == c.structs.start + Size(ts[..k])
      invariant c.nodesUsed == old(c.nodesUsed) && |c.nodeTbl| == old(|c.nodeTbl|) && c.calls == old(c.calls)
      invariant CanName(c, name) == can && (can || HasProp(v, ts, m, name) || NamedOver(c, name))
      invariant forall i :: j < i < k ==> !StopsAt(TheItems(v, ts)[i], name)
      decreases |ts| - k
    {
      var next;
      more, next, t := FtNext(c, at, ts, k);
      StoppedOnce(v, ts, m, name, j, k);
      if !more {
        return false, ts';
      }
      ItemIs(v, ts, k, name);
      if t.Begin? || t.EndNode? {
        // the property is not there: insert it here
        ok, ts' := InsertProp(c, at, name, data, ts, j, k, m);
        return;
      }
      if t.Prop? {
        var pname := PropName(c, t.off);
        if pname == name {
          // there is one: overwrite it
          ok, ts' := OverwriteProp(c, at, name, data, t, ts, j, k, m);
          return;
        }
      }
      at := next;
      k := k + 1;
    }
  }

  /** The search has come to token `k`, where it stops. */
  ghost predicate Stopped(v: View, ts: seq<Token>, j: nat, k: nat, m: nat, name: seq<byte>) {
    && j < k < |ts| && ts[j].Begin? && Begins(ts[..j]) == m
    && StopsAt(TheItems(v, ts)[k], name) && forall i :: j < i < k ==> !StopsAt(TheItems(v, ts)[i], name)
  }

  method InsertProp(c: Cxt, at: int, name: seq<byte>, data: seq<byte>, ghost ts: seq<Token>, ghost j: nat, ghost k: nat, ghost m: nat)
    returns (ok: bool, ghost ts': seq<Token>)
    requires c.Valid() && Represents(c.TheView(), ts) && Stopped(c.TheView(), ts, j, k, m, name) && !ts[k].Prop?
    requires at == c.structs.start + Size(ts[..k])
    requires IsString(name) && Small(c.TheView(), name) && |data| < 0x8000_0000
    requires CanName(c, name) || NamedOver(c, name)
    modifies c
    ensures c.Valid() && c.nodesUsed == old(c.nodesUsed) && |c.nodeTbl| == old(|c.nodeTbl|)
    ensures old(CanName(c, name)) ==>
              if ok then PropSet(old(c.TheView()), c.TheView(), ts, ts', m, T.Property(name, data))
              else SameTree(old(c.TheView()), c.TheView(), ts)
    ensures ok && !old(CanName(c, name)) ==> Lost(c.TheView())
    ensures old(c.calls) <= c.calls && (ok <==> !c.Refused(old(c.calls), c.calls))
  {
    hide ViewOf, Wf, Represents, Size, Items, Edited, FindString, StopsAt, PropSet, InOrder, Lost;
    ghost var v, p, can := c.TheView(), T.Property(name, data), CanName(c, name);
    ts' := ts;
    assert ts[..k] + ts[k..] == ts;
    SetPosition(c, at);
    SameView(v, c.TheView(), ts, k);
    ghost var off;
    ok, off := FtProp(c, name, data, ts[..k], ts[k..]);
    if ok && can {
      EditedSame(v, v.(p := Size(ts[..k])), c.TheView(), ts[..k], [], [Prop(off, data)], ts[k..], [T.Prop(p)]);
      InsertSets(v, c.TheView(), ts, j, k, m, off, p);
      ts' := ts[..k] + [Prop(off, data)] + ts[k..];
    }
  }

  method OverwriteProp(c: Cxt, at: int, name: seq<byte>, data: seq<byte>, t: Token, ghost ts: seq<Token>, ghost j: nat, ghost k: nat,
                       ghost m: nat) returns (ok: bool, ghost ts': seq<Token>)
    requires c.Valid() && Represents(c.TheView(), ts) && Handles(c.TheView(), ts)
    requires Stopped(c.TheView(), ts, j, k, m, name) && t == ts[k] && t.Prop?
    requires at == c.structs.start + Size(ts[..k]) && |data| < 0x8000_0000
    modifies c
    ensures c.Valid() && c.nodesUsed == old(c.nodesUsed) && |c.nodeTbl| == old(|c.nodeTbl|)
    ensures ok ==> PropSet(old(c.TheView()), c.TheView(), ts, ts', m, T.Property(name, data))
    ensures !ok ==> SameTree(old(c.TheView()), c.TheView(), ts)
    ensures old(c.calls) <= c.calls && (ok <==> !c.Refused(old(c.calls), c.calls))
  {
    hide ViewOf, Wf, Represents, Size, Items, Edited, StopsAt, PropSet, InOrder, Handles;
    ghost var v := c.TheView();
    ts' := ts;
    assert ts[..k] + [t] + ts[k + 1..] == ts;
    ok := Overwrite(c, data, at + 12, ts[..k], t, ts[k + 1..]);
    if ok {
      OverwriteSets(v, c.TheView(), ts, j, k, m, T.Property(name, data));
      ts' := ts[..k] + [Prop(t.off, data)] + ts[k + 1..];
    }
  }

  lemma NoChange(v: View, ts: seq<Token>)
    requires Represents(v, ts)
    ensures SameTree(v, v, ts)
  {
  }

  lemma ItemIs(v: View, ts: seq<Token>, k: nat, name: seq<byte>)
    requires k < |ts|
    ensures StopsAt(TheItems(v, ts)[k], name) ==
            (ts[k].Begin? || ts[k].EndNode? || (ts[k].Prop? && NameAt(v.strings, v.anchor + Signed(ts[k].off)) == name))
  {
  }

  lemma SameView(v: View, w: View, ts: seq<Token>, k: nat)
    requires Represents(v, ts) && w == v.(p := w.p) && k <= |ts|
    ensures Represents(w, ts[..k] + ts[k..])
  {
    hide Reads, Named;
    assert ts[..k] + ts[k..] == ts;
  }

  lemma EditedSame(v: View, u: View, w: View, a: seq<Token>, olds: seq<Token>, news: seq<Token>, b: seq<Token>, xs: seq<T.Item>)
    requires u == v.(p := u.p) && Edited(u, w, a, olds, news, b, xs)
    ensures Edited(v, w, a, olds, news, b, xs)
  {
    hide Represents, NodesKept, Items;
  }
}
