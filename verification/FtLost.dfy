/** A tree that loses its end: a property name for which the strings would have to be moved up. */
module FtLost {
  import opened Bits
  import opened FtBlob
  import opened FtLayout
  import opened FtSpace
  import opened FtTokens
  import opened FtNames
  import opened FtEdit

  /** A root without properties, at address 8000: header, an empty reserve map, structure, no strings. */
  const BASE: nat := 8000
  const STRUCTURE: seq<byte> := [0, 0, 0, 1, 0, 0, 0, 0, 0, 0, 0, 2, 0, 0, 0, 9]
  const ROOT: seq<Token> := [Begin([]), EndNode]

  function Blob(): (b: seq<byte>)
    ensures |b| == 72 && b[56..72] == STRUCTURE
  {
    Padding(56) + STRUCTURE
  }

  function Start(): Layout {
    Layout(BASE, Blob(), Region(BASE + 40, 16), Region(BASE + 56, 16), Region(BASE + 72, 0), BASE + 72, BASE + 56, [])
  }

  lemma StartIs()
    ensures Wf(Start()) && Represents(ViewOf(Start()), ROOT) && ViewOf(Start()).strings == [] && ViewOf(Start()).anchor == 0
  {
    hide Bytes, Named, Reads, Wf, ViewOf;
    ReadsRoot();
    NamedNone();
    StartView();
  }

  lemma StartView()
    ensures Wf(Start())
    ensures var v := ViewOf(Start()); v.structs == STRUCTURE && v.strings == [] && v.anchor == 0
  {
    hide Blob;
  }

  lemma NamedNone()
    ensures Named([], 0, ROOT)
  {
  }

  lemma ReadsRoot()
    ensures Reads(STRUCTURE, ROOT, Bytes(OF_DT_END))
  {
    var s, t, u := STRUCTURE, STRUCTURE[8..], STRUCTURE[12..];
    EndIs();
    assert s[..4] == [0, 0, 0, 1] && t[..4] == [0, 0, 0, 2];
    assert s[4..][0] == 0;
    StrLenIs(s[4..], 0);
    assert s[4..4] == [];
    assert Next(s) == FtTokens.Token(Begin([]), 8);
    assert Next(t) == FtTokens.Token(EndNode, 4);
    assert ROOT[1..] == [EndNode] && ROOT[1..][1..] == [] && t[4..] == u == Bytes(OF_DT_END);
  }

  /** Strings that are found are not longer than all of them. */
  lemma {:induction false} FoundShort(strings: seq<byte>, i: nat, name: seq<byte>)
    requires |name| > |strings|
    ensures FindString(strings, i, name) < 0
    decreases |strings| - i
  {
    hide NameAt, StrLen;
    NameShort(strings, i);
    if i < |strings| { FoundShort(strings, i + StrLen(strings[i..]) + 1, name); }
  }

  lemma NameShort(strings: seq<byte>, i: nat)
    ensures |NameAt(strings, i)| <= |strings|
  {
  }

  /** With an allocator that never fails: after one short name has put the regions in order, 1030 bytes
    * are free, and a name that takes 1035 goes over the end tag and into the end of the root. */
  method Lose(realloc: nat -> Address, junk: nat -> byte) returns (c: Cxt, ok: bool)
    requires forall k :: realloc(k) != 0
    ensures ok && c.Valid() && forall ts :: !Represents(c.TheView(), ts)
  {
    hide Wf, ViewOf, Represents, Overwritten, FindString, Blob, HasName, NameAt, Items;
    StartIs();
    c := new Cxt(BASE, Blob(), Region(BASE + 40, 16), Region(BASE + 56, 16), Region(BASE + 72, 0), 8, realloc, junk);
    assert c.TheLayout() == Start();
    FoundShort([], 0, [97]);
    var off;
    ok, off := MapString(c, [97], ROOT);
    StructIs(Start());
    StructIs(c.TheLayout());
    ghost var v := c.TheView();
    FoundShort(v.strings, 0, seq(1034, _ => 65));
    ok, off := MapString(c, seq(1034, _ => 65), ROOT);
    OverwrittenLost(v, c.TheView(), ROOT, seq(1034, _ => 65), 1030);
  }
}
