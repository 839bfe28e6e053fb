/** Finishing a flattened device tree, and opening one. */
module FtEnd {
  import opened Bits
  import opened FtBlob
  import opened FtLayout
  import opened FtSpace
  import opened FtTokens
  import opened FtNames
  import opened FtEdit
  import T = FtTree

  // ----- String offsets

  /** A token with `adj` added to its string offset. */
  function Adjust(t: Token, adj: int): Token {
    if t.Prop? then Prop(Unsigned(Signed(t.off) + adj), t.data) else t
  }

  function Adjusted(ts: seq<Token>, adj: int): (us: seq<Token>)
    ensures |us| == |ts| && forall i :: 0 <= i < |ts| ==> us[i] == Adjust(ts[i], adj)
  {
    seq(|ts|, i requires 0 <= i < |ts| => Adjust(ts[i], adj))
  }

  /** When offsets become positions, every property keeps its name. */
  lemma AdjustedItems(strings: seq<byte>, anchor: int, ts: seq<Token>)
    requires Named(strings, anchor, ts) && |strings| < MAX_STRINGS
    ensures Named(strings, 0, Adjusted(ts, anchor))
    ensures Items(strings, 0, Adjusted(ts, anchor)) == Items(strings, anchor, ts)
  {
    hide NameAt;
    var us := Adjusted(ts, anchor);
    forall i | 0 <= i < |ts|
      ensures us[i].Prop? ==> HasName(strings, 0 + Signed(us[i].off))
      ensures ItemOf(strings, 0, us[i]) == ItemOf(strings, anchor, ts[i])
    {
    }
  }

  lemma AdjustedLength(ts: seq<Token>, adj: int)
    ensures Size(Adjusted(ts, adj)) == Size(ts) && Begins(Adjusted(ts, adj)) == Begins(ts)
  {
    AdjustedSize(ts, adj);
    AdjustedBegins(ts, adj);
  }

  lemma {:induction false} AdjustedSize(ts: seq<Token>, adj: int)
    ensures Size(Adjusted(ts, adj)) == Size(ts)
  {
    if |ts| > 0 {
      AdjustedSize(ts[1..], adj);
      assert Adjusted(ts, adj)[1..] == Adjusted(ts[1..], adj);
    }
  }

  lemma {:induction false} AdjustedBegins(ts: seq<Token>, adj: int)
    ensures Begins(Adjusted(ts, adj)) == Begins(ts)
  {
    if |ts| > 0 {
      AdjustedBegins(ts[..|ts| - 1], adj);
      assert Adjusted(ts, adj)[..|ts| - 1] == Adjusted(ts[..|ts| - 1], adj);
    }
  }

  /** Writing another offset into a property. */
  lemma NextOffset(u: seq<byte>, w: nat, x: seq<byte>)
    requires Next(u).Token? && Next(u).token.Prop? && w < 0x1_0000_0000
    ensures Next(Put(u[..Next(u).len], 8, Bytes(w)) + x) == Token(Prop(w, Next(u).token.data), Next(u).len)
  {
    hide Bytes, Word;
    var n, data := Next(u).len, Next(u).token.data;
    var z := Put(u[..n], 8, Bytes(w));
    var y := z + x;
    OffsetParts(u, n, Bytes(w), x);
    assert y[12..12 + |data|] == y[12..n][..|data|] && u[12..12 + |data|] == u[12..n][..|data|];
  }

  lemma OffsetParts(u: seq<byte>, n: nat, w: seq<byte>, x: seq<byte>)
    requires 12 <= n <= |u| && |w| == 4
    ensures var y := Put(u[..n], 8, w) + x;
            n <= |y| && y[..4] == u[..4] && y[4..8] == u[4..8] && y[8..12] == w && y[12..n] == u[12..n]
  {
    hide Put;
    var z := Put(u[..n], 8, w);
    PutElsewhere(u[..n], 8, w, 0, 4);
    PutElsewhere(u[..n], 8, w, 4, 8);
    PutThere(u[..n], 8, w);
    PutElsewhere(u[..n], 8, w, 12, n);
    PartOfPrefix(z, x, 0, 4);
    PartOfPrefix(z, x, 4, 8);
    PartOfPrefix(z, x, 8, 12);
    PartOfPrefix(z, x, 12, n);
    PartOfPrefix(u[..n], u[n..], 0, 4);
    PartOfPrefix(u[..n], u[n..], 4, 8);
    PartOfPrefix(u[..n], u[n..], 12, n);
    assert u[..n] + u[n..] == u;
  }

  lemma PartOfPrefix(z: seq<byte>, x: seq<byte>, i: nat, j: nat)
    requires i <= j <= |z|
    ensures (z + x)[i..j] == z[i..j]
  {
  }

  lemma OffsetWritten(s: seq<byte>, a: seq<Token>, t: Token, b: seq<Token>, w: nat)
    requires Reads(s, a + [t] + b, Bytes(OF_DT_END)) && t.Prop? && w < 0x1_0000_0000
    ensures Size(a) + 12 <= |s|
    ensures Reads(Put(s, Size(a) + 8, Bytes(w)), a + [Prop(w, t.data)] + b, Bytes(OF_DT_END))
  {
    hide Size, Reads, Next, Bytes, Word, Put, Length;
    Middle(a, t, b);
    AtomAt(s, a + [t] + b, |a|);
    var k, n := Size(a), Length(t);
    SizeConcat(a, [t]);
    SizeOf(t);
    PropLength(t);
    OffsetCode(s[k..], t, w);
    ReadsSplice(s, a, [t], [Prop(w, t.data)], Put(s[k..][..n], 8, Bytes(w)), b, Bytes(OF_DT_END));
    PutParts(s, k, n, Bytes(w));
  }

  lemma Middle(a: seq<Token>, t: Token, b: seq<Token>)
    ensures (a + [t] + b)[|a|] == t && (a + [t] + b)[..|a|] == a
  {
  }

  lemma PropLength(t: Token)
    requires t.Prop?
    ensures Length(t) == 12 + Align4(|t.data|)
  {
  }

  lemma OffsetCode(u: seq<byte>, t: Token, w: nat)
    requires Next(u) == Token(t, Length(t)) && t.Prop? && w < 0x1_0000_0000
    ensures forall x :: Reads(Put(u[..Length(t)], 8, Bytes(w)) + x, [Prop(w, t.data)], x)
  {
    hide Next, Reads, Bytes, Put;
    var code := Put(u[..Length(t)], 8, Bytes(w));
    forall x ensures Reads(code + x, [Prop(w, t.data)], x) {
      NextOffset(u, w, x);
      ReadsOne(code, Prop(w, t.data), x);
    }
  }

  lemma ReadsOne(code: seq<byte>, t: Token, x: seq<byte>)
    requires Next(code + x) == Token(t, |code|)
    ensures Reads(code + x, [t], x)
  {
    assert (code + x)[|code|..] == x;
  }

  lemma PutParts(s: seq<byte>, k: nat, n: nat, w: seq<byte>)
    requires 12 <= n && k + n <= |s| && |w| == 4
    ensures s[..k] + Put(s[k..][..n], 8, w) + s[k + n..] == Put(s, k + 8, w)
  {
  }

  /** Add `adj` to all string offsets in the structure. */
  method AdjustStringOffsets(c: Cxt, adj: int, ghost ts: seq<Token>)
    requires c.Valid() && Reads(c.TheView().structs, ts, Bytes(OF_DT_END))
    modifies c`blob
    ensures c.Valid() && |c.blob| == old(|c.blob|)
    ensures c.TheView() == old(c.TheView()).(structs := c.TheView().structs)
    ensures Reads(c.TheView().structs, Adjusted(ts, adj), Bytes(OF_DT_END))
  {
    hide ViewOf, Wf, InOrder, Size, Reads, Bytes, Put, Length, Signed, Unsigned;
    ghost var v := c.TheView();
    var p := c.structs.start;
    ghost var k := 0;
    SizeNone();
    assert ts[..0] == [];
    AdjustedNone(ts, adj);
    while true
      invariant c.Valid() && |c.blob| == old(|c.blob|) && k <= |ts| && c.TheView() == v.(structs := c.TheView().structs)
      invariant Reads(c.TheView().structs, Adjusted(ts[..k], adj) + ts[k..], Bytes(OF_DT_END))
      invariant p == c.structs.start + Size(ts[..k])
      decreases |ts| - k
    {
      ghost var us := Adjusted(ts[..k], adj) + ts[k..];
      assert us[..k] == Adjusted(ts[..k], adj);
      AdjustedLength(ts[..k], adj);
      var more, next, t := FtNext(c, p, us, k);
      if !more {
        AdjustedAll(ts, adj, k);
        return;
      }
      AdjustedNext(ts, adj, k);
      if t.Prop? {
        AdjustOne(c, p, t, Unsigned(Signed(t.off) + adj), us, k);
      }
      p := next;
      k := k + 1;
    }
  }

  lemma AdjustedNone(ts: seq<Token>, adj: int)
    ensures Adjusted(ts[..0], adj) + ts[0..] == ts
  {
  }

  lemma AdjustedAll(ts: seq<Token>, adj: int, k: nat)
    requires k == |ts|
    ensures Adjusted(ts[..k], adj) + ts[k..] == Adjusted(ts, adj)
  {
    assert ts[..k] == ts;
  }

  lemma AdjustedNext(ts: seq<Token>, adj: int, k: nat)
    requires k < |ts|
    ensures var us, next := Adjusted(ts[..k], adj) + ts[k..], Adjusted(ts[..k + 1], adj) + ts[k + 1..];
            && us[k] == ts[k] && us[k + 1..] == ts[k + 1..]
            && next == us[..k] + [Adjust(ts[k], adj)] + us[k + 1..]
            && (!ts[k].Prop? ==> next == us)
            && Size(us[..k + 1]) == Size(ts[..k + 1])
  {
    hide Size;
    var us, next := Adjusted(ts[..k], adj) + ts[k..], Adjusted(ts[..k + 1], adj) + ts[k + 1..];
    assert us[..k + 1] == Adjusted(ts[..k], adj) + [ts[k]];
    assert ts[..k + 1] == ts[..k] + [ts[k]];
    AdjustedLength(ts[..k], adj);
    SizeConcat(Adjusted(ts[..k], adj), [ts[k]]);
    SizeConcat(ts[..k], [ts[k]]);
  }

  method AdjustOne(c: Cxt, p: int, t: Token, w: nat, ghost us: seq<Token>, ghost k: nat)
    requires c.Valid() && Reads(c.TheView().structs, us, Bytes(OF_DT_END)) && w < 0x1_0000_0000
    requires k < |us| && us[k] == t && t.Prop? && p == c.structs.start + Size(us[..k])
    modifies c`blob
    ensures c.Valid() && |c.blob| == old(|c.blob|) && c.TheView() == old(c.TheView()).(structs := c.TheView().structs)
    ensures Reads(c.TheView().structs, us[..k] + [Prop(w, t.data)] + us[k + 1..], Bytes(OF_DT_END))
  {
    hide ViewOf, Wf, InOrder, Size, Reads, Bytes, Put;
    ghost var l := c.TheLayout();
    assert us == us[..k] + [t] + us[k + 1..];
    OffsetWritten(c.TheView().structs, us[..k], t, us[k + 1..], w);
    StructIs(l);
    WriteStruct(l, p + 8, Bytes(w));
    KeepsOrder(l, p + 8, Bytes(w));
    WriteAt(c, p + 8, Bytes(w));
  }

  /** Offsets that were read stay when nothing is added. */
  lemma {:induction false} AdjustedZero(s: seq<byte>, ts: seq<Token>, rest: seq<byte>)
    requires Reads(s, ts, rest)
    ensures Adjusted(ts, 0) == ts
    decreases |ts|
  {
    if |ts| > 0 {
      AdjustedZero(s[Length(ts[0])..], ts[1..], rest);
      assert Adjusted(ts, 0)[1..] == Adjusted(ts[1..], 0);
      if ts[0].Prop? { OffsetSmall(s); }
      assert Adjust(ts[0], 0) == ts[0];
      assert ts == [ts[0]] + ts[1..] && Adjusted(ts, 0) == [Adjust(ts[0], 0)] + Adjusted(ts[1..], 0);
    }
  }

  lemma OffsetSmall(s: seq<byte>)
    requires Next(s).Token? && Next(s).token.Prop?
    ensures Next(s).token.off < 0x1_0000_0000
  {
  }

  // ----- The header

  const TOTALSIZE: nat := 4
  const OFF_DT_STRUCT: nat := 8
  const OFF_DT_STRINGS: nat := 12
  const OFF_MEM_RSVMAP: nat := 16
  const VERSION: nat := 20
  const DT_STRINGS_SIZE: nat := 32

  /** A field of the header. */
  function Field(header: seq<byte>, at: nat): nat
    requires at + 4 <= |header|
  {
    Word(header[at..at + 4])
  }

  /** The header says where the regions are. */
  ghost predicate Described(l: Layout)
    requires HEADER_BYTES <= |l.blob|
  {
    && Field(l.blob, OFF_MEM_RSVMAP) == l.rsvmap.start - l.bph
    && Field(l.blob, OFF_DT_STRUCT) == l.structs.start - l.bph
    && Field(l.blob, OFF_DT_STRINGS) == l.strings.start - l.bph
    && Field(l.blob, DT_STRINGS_SIZE) == l.strings.size
    && Field(l.blob, TOTALSIZE) == l.strings.End() - l.bph
  }

  /** A field written leaves the regions alone. */
  lemma WriteHeader(l: Layout, at: nat, w: nat)
    requires Wf(l) && at + 4 <= HEADER_BYTES && w < 0x1_0000_0000
    ensures var m := Write(l, l.bph + at, Bytes(w));
            && Wf(m) && (InOrder(l) ==> InOrder(m))
            && |ViewOf(l).header| == HEADER_BYTES && ViewOf(m) == ViewOf(l).(header := Put(ViewOf(l).header, at, Bytes(w)))
  {
    PutFront(l.blob, HEADER_BYTES, at, Bytes(w));
    hide Put, Content, Shift, Bytes;
    WriteElsewhere(l, l.bph + at, Bytes(w), l.rsvmap);
    WriteElsewhere(l, l.bph + at, Bytes(w), l.structs);
    WriteElsewhere(l, l.bph + at, Bytes(w), l.strings);
  }

  lemma PutFront(b: seq<byte>, n: nat, at: nat, data: seq<byte>)
    requires at + |data| <= n <= |b|
    ensures Put(b, at, data)[..n] == Put(b[..n], at, data)
  {
  }

  method PutField(c: Cxt, at: nat, w: nat)
    requires c.Valid() && at + 4 <= HEADER_BYTES && w < 0x1_0000_0000
    modifies c`blob
    ensures c.Valid() && |c.blob| == old(|c.blob|) && HEADER_BYTES <= |c.blob|
    ensures |old(c.TheView()).header| == HEADER_BYTES
    ensures c.TheView() == old(c.TheView()).(header := Put(old(c.TheView()).header, at, Bytes(w)))
  {
    hide ViewOf, Put, Bytes;
    WriteHeader(c.TheLayout(), at, w);
    WriteAt(c, c.bph + at, Bytes(w));
  }

  // ----- Moving the strings behind the structure

  function StringsTo(l: Layout, str: int): Layout
    requires Wf(l) && l.bph <= str && str + l.strings.size <= l.bph + |l.blob|
  {
    l.(blob := Move(l.blob, str - l.bph, l.strings.start - l.bph, l.strings.size),
       strings := Region(str, l.strings.size), anchor := str)
  }

  lemma StringsToIs(l: Layout, str: int)
    requires Wf(l) && InOrder(l) && l.structs.End() <= str && str + l.strings.size <= l.bph + |l.blob|
    ensures var m := StringsTo(l, str);
            && Wf(m) && InOrder(m)
            && ViewOf(m) == ViewOf(l).(anchor := 0)
  {
    hide Move, Shift, Content;
    var m := StringsTo(l, str);
    MoveDown(l.blob, l.strings.start - l.bph, l.strings.size, str - l.bph,
             l.rsvmap.start - l.bph, l.rsvmap.End() - l.bph, l.structs.start - l.bph, l.structs.End() - l.bph);
    Same(l, m, l.rsvmap);
    Same(l, m, l.structs);
    Moved(l, m, l.strings, m.strings);
  }

  lemma MoveDown(blob: seq<byte>, s: nat, n: nat, to: nat, a: nat, b: nat, c: nat, d: nat)
    requires HDR_SIZE <= a <= b <= c <= d <= to && to + n <= |blob| && d <= s && s + n <= |blob|
    ensures var m := Move(blob, to, s, n);
            m[..HEADER_BYTES] == blob[..HEADER_BYTES] && m[a..b] == blob[a..b] && m[c..d] == blob[c..d] && m[to..to + n] == blob[s..s + n]
  {
    PutThere(blob, to, blob[s..s + n]);
    MoveElsewhere(blob, to, s, n, 0, HEADER_BYTES);
    MoveElsewhere(blob, to, s, n, a, b);
    MoveElsewhere(blob, to, s, n, c, d);
  }

  /** The view `w` is that of the tree of `v`, with string positions for offsets. */
  ghost predicate SamePositions(v: View, w: View, ts: seq<Token>) {
    && Represents(w, Adjusted(ts, v.anchor)) && TheItems(w, Adjusted(ts, v.anchor)) == TheItems(v, ts)
    && w.anchor == 0 && w.strings == v.strings && w.rsvmap == v.rsvmap && w.nodes == v.nodes
  }

  /** The header, by its nine words: the second to the fifth and the last have been filled in. */
  ghost predicate HeaderIs(h: seq<byte>, was: seq<byte>, total: int, structs: int, strings: int, rsvmap: int, size: int) {
    && |was| == 36 && 0 <= total < 0x1_0000_0000 && 0 <= structs < 0x1_0000_0000 && 0 <= strings < 0x1_0000_0000
    && 0 <= rsvmap < 0x1_0000_0000 && 0 <= size < 0x1_0000_0000
    && h == was[..4] + Bytes(total) + Bytes(structs) + Bytes(strings) + Bytes(rsvmap) + was[20..32] + Bytes(size)
  }

  lemma FilledIn(was: seq<byte>, a: seq<byte>, b: seq<byte>, c: seq<byte>, d: seq<byte>, e: seq<byte>)
    requires |was| == 36 && |a| == |b| == |c| == |d| == |e| == 4
    ensures Put(Put(Put(Put(Put(was, 4, a), 16, d), 8, b), 12, c), 32, e) == was[..4] + a + b + c + d + was[20..32] + e
  {
    hide Put;
    var m, n, p, q, x, y, z := was[..4], was[4..8], was[8..12], was[12..16], was[16..20], was[20..32], was[32..];
    assert was == m + n + (p + q + x + y + z);
    PutMiddle(m, n, p + q + x + y + z, a);
    assert m + a + (p + q + x + y + z) == m + a + p + q + x + (y + z);
    PutMiddle(m + a + p + q, x, y + z, d);
    assert m + a + p + q + d + (y + z) == m + a + p + (q + d + y + z);
    PutMiddle(m + a, p, q + d + y + z, b);
    assert m + a + b + (q + d + y + z) == m + a + b + q + (d + y + z);
    PutMiddle(m + a + b, q, d + y + z, c);
    assert m + a + b + c + (d + y + z) == m + a + b + c + d + y + z + [];
    PutMiddle(m + a + b + c + d + y, z, [], e);
    assert m + a + b + c + d + y + e + [] == m + a + b + c + d + y + e;
  }

  lemma PutMiddle(x: seq<byte>, y: seq<byte>, z: seq<byte>, data: seq<byte>)
    requires |y| == |data|
    ensures Put(x + y + z, |x|, data) == x + data + z
  {
    var b := x + y + z;
    assert b[..|x|] == x && b[|x| + |data|..] == z;
  }

  /** A finished tree: the regions follow each other, and the header says where they are. */
  ghost predicate Finished(l: Layout) {
    Wf(l) && InOrder(l) && Described(l) && l.strings.End() % 8 == 0
  }

  /** Fill in the header. */
  method PutHeader(c: Cxt, endp: int)
    requires c.Valid() && InOrder(c.TheLayout()) && c.strings.End() == endp && |c.blob| < 0x8000_0000
    modifies c`blob
    ensures c.Valid() && InOrder(c.TheLayout()) && Described(c.TheLayout())
    ensures c.TheView() == old(c.TheView()).(header := c.TheView().header)
    ensures HeaderIs(c.TheView().header, old(c.TheView()).header, endp - c.bph, c.structs.start - c.bph,
                     c.strings.start - c.bph, c.rsvmap.start - c.bph, c.strings.size)
  {
    hide ViewOf, Put, Bytes, Wf, Described, HeaderIs;
    Offsets(c.TheLayout());
    ghost var h := c.TheView().header;
    PutField(c, TOTALSIZE, endp - c.bph);
    PutField(c, OFF_MEM_RSVMAP, c.rsvmap.start - c.bph);
    PutField(c, OFF_DT_STRUCT, c.structs.start - c.bph);
    PutField(c, OFF_DT_STRINGS, c.strings.start - c.bph);
    PutField(c, DT_STRINGS_SIZE, c.strings.size);
    HeaderFilled(h, endp - c.bph, c.structs.start - c.bph, c.strings.start - c.bph, c.rsvmap.start - c.bph, c.strings.size);
    HeaderDescribes(c.TheLayout(), h);
  }

  lemma HeaderFilled(was: seq<byte>, total: nat, structs: nat, strings: nat, rsvmap: nat, size: nat)
    requires |was| == 36 && total < 0x8000_0000 && structs < 0x8000_0000 && strings < 0x8000_0000 && rsvmap < 0x8000_0000 && size < 0x8000_0000
    ensures HeaderIs(Put(Put(Put(Put(Put(was, TOTALSIZE, Bytes(total)), OFF_MEM_RSVMAP, Bytes(rsvmap)), OFF_DT_STRUCT, Bytes(structs)),
                             OFF_DT_STRINGS, Bytes(strings)), DT_STRINGS_SIZE, Bytes(size)), was, total, structs, strings, rsvmap, size)
  {
    hide Put, Bytes;
    FilledIn(was, Bytes(total), Bytes(structs), Bytes(strings), Bytes(rsvmap), Bytes(size));
  }

  lemma HeaderDescribes(l: Layout, was: seq<byte>)
    requires Wf(l) && HeaderIs(ViewOf(l).header, was, l.strings.End() - l.bph, l.structs.start - l.bph, l.strings.start - l.bph,
                               l.rsvmap.start - l.bph, l.strings.size)
    ensures Described(l)
  {
    hide Content, Shift, Bytes, Word;
    var h := l.blob[..HEADER_BYTES];
    var a, b, c, d, e := Bytes(l.strings.End() - l.bph), Bytes(l.structs.start - l.bph), Bytes(l.strings.start - l.bph),
                         Bytes(l.rsvmap.start - l.bph), Bytes(l.strings.size);
    HeaderParts(was[..4], a, b, c, d, was[20..32], e);
    assert l.blob[4..8] == h[4..8] && l.blob[8..12] == h[8..12] && l.blob[12..16] == h[12..16] && l.blob[16..20] == h[16..20] && l.blob[32..36] == h[32..36];
  }

  lemma HeaderParts(x: seq<byte>, a: seq<byte>, b: seq<byte>, c: seq<byte>, d: seq<byte>, y: seq<byte>, e: seq<byte>)
    requires |x| == |a| == |b| == |c| == |d| == |e| == 4 && |y| == 12
    ensures var h := x + a + b + c + d + y + e;
            |h| == 36 && h[4..8] == a && h[8..12] == b && h[12..16] == c && h[16..20] == d && h[32..36] == e
  {
  }

  lemma Offsets(l: Layout)
    requires Wf(l) && |l.blob| < 0x8000_0000
    ensures 0 <= l.rsvmap.start - l.bph < 0x8000_0000 && 0 <= l.structs.start - l.bph < 0x8000_0000
    ensures 0 <= l.strings.start - l.bph < 0x8000_0000 && 0 <= l.strings.size < 0x8000_0000
    ensures 0 <= l.strings.End() - l.bph < 0x8000_0000
  {
  }

  /** With the offsets adjusted, the tree is the same. */
  lemma AdjustedTree(v: View, u: View, ts: seq<Token>)
    requires Represents(v, ts) && Reads(u.structs, Adjusted(ts, v.anchor), Bytes(OF_DT_END))
    requires u.strings == v.strings && u.anchor == 0
    ensures Represents(u, Adjusted(ts, v.anchor)) && TheItems(u, Adjusted(ts, v.anchor)) == TheItems(v, ts)
  {
    hide Reads, Named, Items;
    AdjustedItems(v.strings, v.anchor, ts);
  }

  /** Move the strings down to the end of the structure. */
  method StringsDown(c: Cxt, str: int)
    requires c.Valid() && InOrder(c.TheLayout()) && c.structs.End() <= str && str + c.strings.size <= c.bph + |c.blob|
    modifies c`blob, c`strings, c`strAnchor
    ensures c.Valid() && InOrder(c.TheLayout()) && c.strings == Region(str, old(c.strings.size)) && |c.blob| == old(|c.blob|)
    ensures c.TheView() == old(c.TheView()).(anchor := 0)
  {
    hide ViewOf, Field, Move;
    StringsToIs(c.TheLayout(), str);
    c.blob := Move(c.blob, str - c.bph, c.strings.start - c.bph, c.strings.size);
    c.strAnchor := str;
    c.strings := Region(str, c.strings.size);
  }

  /** Finish the tree: string offsets count from the start of the strings, these follow the
    * structure, and the header describes the regions.  An unordered blob has not been touched.
    *
    * The strings are moved to end at a multiple of 8, which needs up to 7 bytes more than they
    * take; they are there because the buffer ends at such an address. */
  method EndTree(c: Cxt, ghost ts: seq<Token>)
    requires c.Valid() && Represents(c.TheView(), ts)
    requires c.isordered ==> |c.blob| < 0x8000_0000
    modifies c`blob, c`strings, c`strAnchor
    ensures c.Valid()
    ensures c.isordered ==> Finished(c.TheLayout()) && SamePositions(old(c.TheView()), c.TheView(), ts)
    ensures c.isordered ==> HeaderIs(c.TheView().header, old(c.TheView()).header, c.strings.End() - c.bph, c.structs.start - c.bph,
                                     c.strings.start - c.bph, c.rsvmap.start - c.bph, c.strings.size)
    ensures c.isordered ==> c.structs.End() <= c.strings.start < c.structs.End() + 8 && c.strings.size == old(c.strings.size)
    ensures !c.isordered ==> c.TheLayout() == old(c.TheLayout())
  {
    hide ViewOf, Represents, Field, Adjusted, TheItems, Described, Reads, StringsTo, HeaderIs;
    if !c.isordered {
      return;
    }
    ghost var v := c.TheView();
    AnchorIs(c.TheLayout());
    StructReads(v, ts);
    // adjust string offsets
    var adj := c.strAnchor - c.strings.start;
    if adj != 0 {
      AdjustStringOffsets(c, adj, ts);
    } else {
      AdjustedZero(v.structs, ts, Bytes(OF_DT_END));
    }
    // make the strings end on an 8-byte boundary
    var endp := Align8(c.structs.End() + c.strings.size);
    RoomToAlign(c.TheLayout());
    StringsDown(c, endp - c.strings.size);
    PutHeader(c, endp);
    AdjustedTree(v, c.TheView(), ts);
  }

  /** There is room for aligning the strings in a buffer that ends at a multiple of 8. */
  lemma RoomToAlign(l: Layout)
    requires Wf(l) && InOrder(l) && (l.bph + |l.blob|) % 8 == 0
    ensures Align8(l.structs.End() + l.strings.size) <= l.bph + |l.blob|
  {
  }

  // ----- Opening a blob

  /** The size of a reserve map: its entries up to the first of all zeros. */
  function RsvSize(s: seq<byte>): (n: nat)
    ensures n <= |s|
  {
    if |s| < 16 then |s|
    else if IsZero(s[..16]) then 16
    else 16 + RsvSize(s[16..])
  }

  predicate IsZero(s: seq<byte>) {
    forall i :: 0 <= i < |s| ==> s[i] == 0
  }

  /** The size of a structure: its tokens and the end tag. */
  function StructSize(s: seq<byte>): nat {
    match Next(s)
    case Token(_, len) => len + StructSize(s[len..])
    case _ => 4
  }

  /** A reserve map ends with its first entry of all zeros. */
  predicate RsvOK(s: seq<byte>) {
    && 16 <= |s|
    && if IsZero(s[..16]) then |s| == 16 else RsvOK(s[16..])
  }

  lemma {:induction false} RsvSizeIs(s: seq<byte>, x: seq<byte>)
    requires RsvOK(s)
    ensures RsvSize(s + x) == |s|
  {
    hide IsZero;
    var u := s + x;
    assert u[..16] == s[..16];
    if !IsZero(s[..16]) {
      assert u[16..] == s[16..] + x;
      RsvSizeIs(s[16..], x);
    }
  }

  lemma {:induction false} StructSizeIs(s: seq<byte>, ts: seq<Token>, x: seq<byte>)
    requires Reads(s, ts, Bytes(OF_DT_END))
    ensures StructSize(s + x) == |s|
    decreases |ts|
  {
    hide Bytes;
    if |ts| == 0 {
      StopLocal(x);
    } else {
      var n := Length(ts[0]);
      TokenLocal(s, x);
      assert (s + x)[n..] == s[n..] + x;
      StructSizeIs(s[n..], ts[1..], x);
    }
  }

  lemma StopLocal(x: seq<byte>)
    ensures Next(Bytes(OF_DT_END) + x) == Stop
  {
    assert (Bytes(OF_DT_END) + x)[..4] == Bytes(OF_DT_END);
  }

  lemma TokenLocal(s: seq<byte>, x: seq<byte>)
    requires Next(s).Token?
    ensures Next(s + x) == Next(s)
  {
    var n := Next(s).len;
    NextLocal(s, s[n..] + x);
    assert s[..n] + (s[n..] + x) == s + x;
  }

  method RsvmapSize(blob: seq<byte>, start: nat) returns (n: nat)
    requires start <= |blob|
    ensures n == RsvSize(blob[start..])
  {
    hide IsZero;
    n := 0;
    ghost var s := blob[start..];
    while start + n + 16 <= |blob| && !IsZero(blob[start + n..start + n + 16])
      invariant start + n <= |blob| && n + RsvSize(s[n..]) == RsvSize(s)
      decreases |blob| - n
    {
      SliceOf3(blob, start, n);
      n := n + 16;
    }
    if start + n + 16 <= |blob| {
      SliceOf3(blob, start, n);
      n := n + 16;
    } else {
      n := |blob| - start;
    }
  }

  lemma SliceOf3(blob: seq<byte>, start: nat, n: nat)
    requires start + n + 16 <= |blob|
    ensures blob[start..][n..][..16] == blob[start + n..start + n + 16] && blob[start..][n..][16..] == blob[start..][n + 16..]
  {
  }

  method StructureSize(blob: seq<byte>, start: nat) returns (n: nat)
    requires start <= |blob|
    ensures n == StructSize(blob[start..])
  {
    hide Next, StructSize;
    var p := start;
    while Next(blob[p..]).Token?
      invariant start <= p <= |blob| && (p - start) + StructSize(blob[p..]) == StructSize(blob[start..])
      decreases |blob| - p
    {
      StructStep(blob, p);
      p := p + Next(blob[p..]).len;
    }
    StructStep(blob, p);
    n := p + 4 - start;
  }

  lemma StructStep(blob: seq<byte>, p: nat)
    requires p <= |blob|
    ensures match Next(blob[p..])
            case Token(_, len) => 0 < len && p + len <= |blob| && StructSize(blob[p..]) == len + StructSize(blob[p + len..])
            case _ => StructSize(blob[p..]) == 4
  {
    hide Next;
    if Next(blob[p..]).Token? {
      assert blob[p..][Next(blob[p..]).len..] == blob[p + Next(blob[p..]).len..];
    }
  }

  /** The regions of a blob that its header describes. */
  function OpenLayout(bph: int, blob: seq<byte>): Layout
    requires HEADER_BYTES <= |blob|
  {
    var rsv, st, str := Field(blob, OFF_MEM_RSVMAP), Field(blob, OFF_DT_STRUCT), Field(blob, OFF_DT_STRINGS);
    var structs := Region(bph + st, if st <= |blob| then StructSize(blob[st..]) else 0);
    var strings := Region(bph + str, Field(blob, DT_STRINGS_SIZE));
    Layout(bph, blob, Region(bph + rsv, if rsv <= |blob| then RsvSize(blob[rsv..]) else 0), structs, strings,
           strings.start, structs.start, [])
  }

  /** Opening a finished blob finds its regions again. */
  lemma ReopenLayout(l: Layout, ts: seq<Token>)
    requires Finished(l) && RsvOK(ViewOf(l).rsvmap) && Reads(ViewOf(l).structs, ts, Bytes(OF_DT_END))
    ensures HEADER_BYTES <= |l.blob|
    ensures OpenLayout(l.bph, l.blob) == l.(anchor := l.strings.start, p := l.structs.start, nodes := [])
  {
    hide Field, Reads, Bytes, RsvOK, RsvSize, StructSize, ViewOf;
    var v := ViewOf(l);
    RegionTail(l);
    RsvSizeIs(v.rsvmap, l.blob[l.rsvmap.End() - l.bph..]);
    StructSizeIs(v.structs, ts, l.blob[l.structs.End() - l.bph..]);
  }

  /** A region and what follows it. */
  lemma RegionTail(l: Layout)
    requires Wf(l)
    ensures l.rsvmap.End() - l.bph <= |l.blob| && l.structs.End() - l.bph <= |l.blob|
    ensures |ViewOf(l).rsvmap| == l.rsvmap.size && |ViewOf(l).structs| == l.structs.size
    ensures l.blob[l.rsvmap.start - l.bph..] == ViewOf(l).rsvmap + l.blob[l.rsvmap.End() - l.bph..]
    ensures l.blob[l.structs.start - l.bph..] == ViewOf(l).structs + l.blob[l.structs.End() - l.bph..]
  {
    hide Shift;
    var v, b := ViewOf(l), l.blob;
    SplitAt(b, l.rsvmap.start - l.bph, l.rsvmap.End() - l.bph);
    SplitAt(b, l.structs.start - l.bph, l.structs.End() - l.bph);
  }

  lemma SplitAt(b: seq<byte>, from: nat, to: nat)
    requires from <= to <= |b|
    ensures b[from..] == b[from..to] + b[to..]
  {
  }

  /** Open a blob.  Fails for an old version of the format, or if there is no memory.  The regions are
    * those that the header describes; that they are apart from each other is not checked. */
  method Open(bph: int, blob: seq<byte>, maxFind: nat, realloc: nat -> Address, junk: nat -> byte) returns (c: Cxt?)
    requires HEADER_BYTES <= |blob| && Word(blob[16..20]) <= |blob| && Word(blob[8..12]) <= |blob|
    ensures c == null <==> Word(blob[20..24]) < 16 || realloc(0) == 0
    ensures c != null ==>
              && c.bph == bph && c.blob == blob
              && c.rsvmap == Region(bph + Word(blob[16..20]), RsvSize(blob[Word(blob[16..20])..]))
              && c.structs == Region(bph + Word(blob[8..12]), StructSize(blob[Word(blob[8..12])..]))
              && c.strings == Region(bph + Word(blob[12..16]), Word(blob[32..36]))
              && c.p == c.structs.start && c.strAnchor == c.strings.start
    ensures c != null ==> fresh(c) && c.nodesUsed == 1 <= |c.nodeTbl| && !c.isordered
                          && c.TheLayout() == OpenLayout(bph, blob) && (Wf(OpenLayout(bph, blob)) ==> c.Valid())
  {
    hide Wf, RsvSize, StructSize, Word;
    if Field(blob, VERSION) < 16 {
      return null;
    }
    if realloc(0) == 0 {
      return null;
    }
    var rsv, st, str := Field(blob, OFF_MEM_RSVMAP), Field(blob, OFF_DT_STRUCT), Field(blob, OFF_DT_STRINGS);
    var rsvSize := RsvmapSize(blob, rsv);
    var structSize := StructureSize(blob, st);
    c := new Cxt(bph, blob, Region(bph + rsv, rsvSize), Region(bph + st, structSize),
                 Region(bph + str, Field(blob, DT_STRINGS_SIZE)), maxFind, realloc, junk);
  }

  lemma OpenBounds(bph: int, blob: seq<byte>)
    requires HEADER_BYTES <= |blob| && Wf(OpenLayout(bph, blob))
    ensures Field(blob, OFF_MEM_RSVMAP) <= |blob| && Field(blob, OFF_DT_STRUCT) <= |blob|
  {
    hide Field;
  }

  /** Finishing a tree and opening the result gives the same flattened tree. */
  lemma Reopened(v: View, l: Layout, ts: seq<Token>)
    requires Finished(l) && SamePositions(v, ViewOf(l), ts) && RsvOK(v.rsvmap)
    ensures HEADER_BYTES <= |l.blob| && Field(l.blob, OFF_MEM_RSVMAP) <= |l.blob| && Field(l.blob, OFF_DT_STRUCT) <= |l.blob|
    ensures var m := OpenLayout(l.bph, l.blob);
            && Wf(m) && Represents(ViewOf(m), Adjusted(ts, v.anchor))
            && TheItems(ViewOf(m), Adjusted(ts, v.anchor)) == TheItems(v, ts)
            && ViewOf(m).rsvmap == v.rsvmap && ViewOf(m).strings == v.strings
  {
    hide Reads, Named, Items, Adjusted, OpenLayout, RsvOK, ViewOf, Described, Represents;
    StructReads(ViewOf(l), Adjusted(ts, v.anchor));
    ReopenLayout(l, Adjusted(ts, v.anchor));
    Refreshed(l);
    var m := l.(anchor := l.strings.start, p := l.structs.start, nodes := []);
    RepresentsAs(ViewOf(l), ViewOf(m), Adjusted(ts, v.anchor));
    OpenBounds(l.bph, l.blob);
  }

  lemma Refreshed(l: Layout)
    requires Wf(l)
    ensures var m := l.(anchor := l.strings.start, p := l.structs.start, nodes := []);
            && Wf(m) && ViewOf(m).structs == ViewOf(l).structs && ViewOf(m).strings == ViewOf(l).strings
            && ViewOf(m).rsvmap == ViewOf(l).rsvmap && ViewOf(m).anchor == 0
  {
    hide Shift;
  }

  lemma RepresentsAs(v: View, w: View, ts: seq<Token>)
    requires Represents(v, ts) && w.structs == v.structs && w.strings == v.strings && w.anchor == v.anchor
    ensures Represents(w, ts) && TheItems(w, ts) == TheItems(v, ts)
  {
    hide Reads, Named, Items;
  }
}
