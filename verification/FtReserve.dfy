/** Room in the reserve map, the region before the structure. */
module FtReserve {
  import opened Bits
  import opened FtBlob
  import opened FtLayout
  import opened FtSpace
  import opened FtTokens
  import opened FtEnd

  /** An entry of the map: an address and a size, of 64 bits each. */
  const ENTRY: nat := 16

  /** Room for `n` bytes has been made in the map, and nothing else has changed. */
  ghost predicate Reserved(v: View, w: View, at: nat, n: nat) {
    w == v.(rsvmap := w.rsvmap) && Gap(v.rsvmap, w.rsvmap, at, n)
  }

  // ----- Moving

  /** Following bytes of the map move up. */
  function MapAfter(l: Layout, q: int, n: nat): Layout
    requires Wf(l) && InOrder(l) && l.rsvmap.start <= q <= l.rsvmap.End() && l.rsvmap.End() + n <= l.structs.start
  {
    l.(blob := Move(l.blob, q + n - l.bph, q - l.bph, l.rsvmap.End() - q),
       rsvmap := Region(l.rsvmap.start, l.rsvmap.size + n))
  }

  /** Preceding bytes of the map move down. */
  function MapBefore(l: Layout, q: int, n: nat): Layout
    requires Wf(l) && l.rsvmap.start <= q <= l.rsvmap.End() && l.bph + HDR_SIZE <= l.rsvmap.start - n
  {
    var s := l.rsvmap.start - l.bph;
    l.(blob := Move(l.blob, s - n, s, q - l.rsvmap.start),
       rsvmap := Region(l.rsvmap.start - n, l.rsvmap.size + n))
  }

  /** The structure moves up by `n`.  Nodes follow, the current position does not. */
  function StructUp(l: Layout, n: nat): Layout
    requires Wf(l) && InOrder(l) && l.structs.End() + n <= l.strings.start
  {
    var s := l.structs.start - l.bph;
    l.(blob := Move(l.blob, s + n, s, l.structs.size),
       structs := Region(l.structs.start + n, l.structs.size),
       nodes := Bump(l.nodes, l.structs.start, n))
  }

  lemma OpenFirst(blob: seq<byte>, s: nat, e: nat, at: nat, n: nat, a: nat, b: nat, c: nat, d: nat)
    requires HDR_SIZE <= s <= at <= e && e + n <= a <= b <= c <= d <= |blob|
    ensures var m := Move(blob, at + n, at, e - at);
            m[..HEADER_BYTES] == blob[..HEADER_BYTES] && m[a..b] == blob[a..b] && m[c..d] == blob[c..d] && Gap(blob[s..e], m[s..e + n], at - s, n)
  {
    hide Move, Gap;
    GapUp(blob, s, e, at, n);
    MoveElsewhere(blob, at + n, at, e - at, 0, HEADER_BYTES);
    MoveElsewhere(blob, at + n, at, e - at, a, b);
    MoveElsewhere(blob, at + n, at, e - at, c, d);
  }

  lemma OpenFirstDown(blob: seq<byte>, s: nat, e: nat, at: nat, n: nat, a: nat, b: nat, c: nat, d: nat)
    requires HDR_SIZE + n <= s <= at <= e <= a <= b <= c <= d <= |blob|
    ensures var m := Move(blob, s - n, s, at - s);
            m[..HEADER_BYTES] == blob[..HEADER_BYTES] && m[a..b] == blob[a..b] && m[c..d] == blob[c..d] && Gap(blob[s..e], m[s - n..e], at - s, n)
  {
    hide Move, Gap;
    GapDown(blob, s, e, at, n);
    MoveElsewhere(blob, s - n, s, at - s, 0, HEADER_BYTES);
    MoveElsewhere(blob, s - n, s, at - s, a, b);
    MoveElsewhere(blob, s - n, s, at - s, c, d);
  }

  lemma MiddleUp(blob: seq<byte>, s: nat, e: nat, n: nat, a: nat, b: nat, c: nat, d: nat)
    requires HDR_SIZE <= a <= b <= s <= e && e + n <= c <= d <= |blob|
    ensures var m := Move(blob, s + n, s, e - s);
            m[..HEADER_BYTES] == blob[..HEADER_BYTES] && m[a..b] == blob[a..b] && m[c..d] == blob[c..d] && m[s + n..e + n] == blob[s..e]
  {
    PutThere(blob, s + n, blob[s..e]);
    MoveElsewhere(blob, s + n, s, e - s, 0, HEADER_BYTES);
    MoveElsewhere(blob, s + n, s, e - s, a, b);
    MoveElsewhere(blob, s + n, s, e - s, c, d);
  }

  lemma MapAfterOpens(l: Layout, q: int, n: nat)
    requires Wf(l) && InOrder(l) && l.rsvmap.start <= q <= l.rsvmap.End() && l.rsvmap.End() + n <= l.structs.start
    ensures var m := MapAfter(l, q, n); Wf(m) && InOrder(m) && Reserved(ViewOf(l), ViewOf(m), q - l.rsvmap.start, n)
  {
    hide Move, Gap, Shift, Content;
    var m := MapAfter(l, q, n);
    OpenFirst(l.blob, l.rsvmap.start - l.bph, l.rsvmap.End() - l.bph, q - l.bph, n,
              l.structs.start - l.bph, l.structs.End() - l.bph, l.strings.start - l.bph, l.strings.End() - l.bph);
    Same(l, m, l.structs);
    Same(l, m, l.strings);
    GapContent(l, m, l.rsvmap, m.rsvmap, q - l.rsvmap.start, n);
  }

  lemma MapBeforeOpens(l: Layout, q: int, n: nat)
    requires Wf(l) && InOrder(l) && l.rsvmap.start <= q <= l.rsvmap.End() && l.bph + HDR_SIZE <= l.rsvmap.start - n
    ensures var m := MapBefore(l, q, n); Wf(m) && InOrder(m) && Reserved(ViewOf(l), ViewOf(m), q - l.rsvmap.start, n)
  {
    hide Move, Gap, Shift, Content;
    var m := MapBefore(l, q, n);
    OpenFirstDown(l.blob, l.rsvmap.start - l.bph, l.rsvmap.End() - l.bph, q - l.bph, n,
                  l.structs.start - l.bph, l.structs.End() - l.bph, l.strings.start - l.bph, l.strings.End() - l.bph);
    Same(l, m, l.structs);
    Same(l, m, l.strings);
    GapContent(l, m, l.rsvmap, m.rsvmap, q - l.rsvmap.start, n);
  }

  /** Moving the structure up changes nothing one can see, except that the current position is left behind. */
  lemma StructUpSame(l: Layout, n: nat)
    requires Wf(l) && InOrder(l) && l.structs.End() + n <= l.strings.start
    ensures var m := StructUp(l, n); Wf(m) && InOrder(m) && ViewOf(m) == ViewOf(l).(p := ViewOf(l).p - n)
  {
    hide Move, Shift, Bump, Content;
    var m := StructUp(l, n);
    MiddleUp(l.blob, l.structs.start - l.bph, l.structs.End() - l.bph, n,
             l.rsvmap.start - l.bph, l.rsvmap.End() - l.bph, l.strings.start - l.bph, l.strings.End() - l.bph);
    Same(l, m, l.rsvmap);
    Same(l, m, l.strings);
    Moved(l, m, l.structs, m.structs);
    AllShift(l.nodes, l.structs.start, n, l.structs.End());
  }

  // ----- Making room

  /** There is room between the header and the map. */
  predicate RoomBefore(c: Cxt, n: nat)
    reads c
  {
    c.bph + 40 <= c.rsvmap.start - n
  }

  /** There is room for the structure further up once the strings are at the end of the buffer. */
  predicate RoomAbove(c: Cxt, n: nat)
    reads c
  {
    c.structs.End() + n < c.bph + |c.blob| - c.strings.size
  }

  /** Move what follows `q` in the map. */
  method MoveAfter(c: Cxt, q: int, n: nat)
    requires c.Valid() && c.isordered && c.rsvmap.start <= q <= c.rsvmap.End() && c.rsvmap.End() + n <= c.structs.start
    modifies c`blob, c`rsvmap
    ensures c.Valid() && c.TheLayout() == MapAfter(old(c.TheLayout()), q, n)
    ensures Reserved(old(c.TheView()), c.TheView(), q - old(c.rsvmap.start), n)
  {
    hide Move, Reserved, ViewOf;
    ghost var l := c.TheLayout();
    MapAfterOpens(l, q, n);
    if q < c.rsvmap.End() {
      c.blob := Move(c.blob, q + n - c.bph, q - c.bph, c.rsvmap.End() - q);
    } else {
      MoveNothing(c.blob, q - c.bph, n);
    }
    c.rsvmap := Region(c.rsvmap.start, c.rsvmap.size + n);
    assert c.TheLayout() == MapAfter(l, q, n);
  }

  /** Move what precedes it. */
  method MoveBefore(c: Cxt, q: int, n: nat)
    requires c.Valid() && c.isordered && c.rsvmap.start <= q <= c.rsvmap.End() && RoomBefore(c, n)
    modifies c`blob, c`rsvmap
    ensures c.Valid() && c.TheLayout() == MapBefore(old(c.TheLayout()), q, n)
    ensures Reserved(old(c.TheView()), c.TheView(), q - old(c.rsvmap.start), n)
  {
    hide Move, Reserved, ViewOf;
    ghost var l := c.TheLayout();
    MapBeforeOpens(l, q, n);
    var start := c.rsvmap.start;
    if q > start {
      c.blob := Move(c.blob, start - n - c.bph, start - c.bph, q - start);
    } else {
      MoveNothing(c.blob, start - n - c.bph, 0 - n);
    }
    c.rsvmap := Region(start - n, c.rsvmap.size + n);
    assert c.TheLayout() == MapBefore(l, q, n);
  }

  /** Open the gap in the map where the regions are. */
  method ShuffleMap(c: Cxt, q: int, n: nat) returns (ok: bool, q': int)
    requires c.Valid() && c.isordered && n > 0 && c.rsvmap.start <= q <= c.rsvmap.End()
    modifies c`blob, c`rsvmap
    ensures c.Valid() && |c.blob| == old(|c.blob|)
    ensures ok ==> Reserved(old(c.TheView()), c.TheView(), q - old(c.rsvmap.start), n)
    ensures ok ==> q' == c.rsvmap.start + (q - old(c.rsvmap.start))
    ensures ok ==> c.rsvmap.End() == old(if c.rsvmap.End() + n <= c.structs.start then c.rsvmap.End() + n else c.rsvmap.End())
    ensures !ok ==> c.TheLayout() == old(c.TheLayout()) && q' == q
    ensures ok <==> old(c.rsvmap.End() + n <= c.structs.start) || old(RoomBefore(c, n))
  {
    hide Move, Reserved, ViewOf, Wf;
    q' := q;
    if c.rsvmap.End() + n <= c.structs.start {
      MoveAfter(c, q, n);
      return true, q';
    }
    if c.bph + HDR_SIZE <= c.rsvmap.start - n {
      MoveBefore(c, q, n);
      return true, q - n;
    }
    ok := false;
  }

  /** Make room for `n` bytes at address `q` of the map.  In a blob in order that succeeds exactly if there is
    * room before the map, or above the structure; the allocator is not asked for more.  If the structure is
    * moved, the current position is left behind. */
  method MakeReserve(c: Cxt, q: int, n: nat) returns (ok: bool, q': int, ghost moved: nat)
    requires CanReserve(c, q, n) && c.Tight()
    modifies c
    ensures c.Valid() && c.nodesUsed == old(c.nodesUsed) && |c.nodeTbl| == old(|c.nodeTbl|)
    ensures c.Tight()
    ensures ok ==> Reserved(old(c.TheView()).(p := old(c.TheView()).p - moved), c.TheView(), q - old(c.rsvmap.start), n)
    ensures ok ==> c.isordered && q' == c.rsvmap.start + (q - old(c.rsvmap.start))
    ensures moved == if ok && !old(c.isordered && RoomBefore(c, n)) then n else 0
    ensures !ok ==> c.TheView() == old(c.TheView())
    ensures ok <==> if old(c.isordered) then old(RoomBefore(c, n) || RoomAbove(c, n)) else c.realloc(old(c.calls)) != 0
    ensures old(c.isordered) ==> c.calls == old(c.calls)
  {
    hide Gap, ViewOf, Wf, Reserved, Align8;
    q', moved := q, 0;
    if !c.isordered {
      var off := q - c.rsvmap.start;
      ok := c.Reorder(n);
      if !ok {
        return;
      }
      q' := c.rsvmap.start + off;
      OrderFacts(c.TheLayout());
    }
    ok, q', moved := MakeInOrder(c, q', n);
  }

  ghost predicate CanReserve(c: Cxt, q: int, n: nat)
    reads c
  {
    c.Valid() && 0 < n <= 1024 && c.rsvmap.start <= q <= c.rsvmap.End() && 0 < c.structs.size < 0x8000_0000
  }

  /** The same for regions in order. */
  method MakeInOrder(c: Cxt, q: int, n: nat) returns (ok: bool, q': int, ghost moved: nat)
    requires CanReserve(c, q, n) && c.isordered && c.Tight()
    modifies c`blob, c`rsvmap, c`structs, c`strings, c`strAnchor, c`nodeTbl
    ensures c.Valid() && |c.nodeTbl| == old(|c.nodeTbl|) && c.Tight()
    ensures ok ==> Reserved(old(c.TheView()).(p := old(c.TheView()).p - moved), c.TheView(), q - old(c.rsvmap.start), n)
    ensures ok ==> q' == c.rsvmap.start + (q - old(c.rsvmap.start))
    ensures moved == if ok && !old(RoomBefore(c, n)) then n else 0
    ensures !ok ==> c.TheView() == old(c.TheView())
    ensures ok <==> old(RoomBefore(c, n) || RoomAbove(c, n))
  {
    hide Gap, ViewOf, Wf, Reserved;
    ghost var v := c.TheView();
    moved := 0;
    OrderFacts(c.TheLayout());
    ok, q' := ShuffleMap(c, q, n);
    if ok {
      SamePosition(v);
      return;
    }
    if c.strings.End() < c.bph + |c.blob| {
      c.StringsUp();
    }
    OrderFacts(c.TheLayout());
    var tot := Unsigned32(c.structs.start - c.rsvmap.End() + (c.structs.start - c.structs.End()));
    if tot < n {
      // without room between map and structure the sum is that of a large number
      assert false;
    }
    if c.structs.End() + n >= c.strings.start {
      return;
    }
    ok, q' := Raise(c, q', n);
    moved := n;
  }

  /** The free space is summed up in an unsigned number, of at least 32 bits: that before the structure, and that
    * from the end of the structure back to its start. */
  function Unsigned32(x: int): (r: nat)
    ensures -0x8000_0000 < x < 0 ==> r > 0x7fff_ffff
  {
    x % 0x1_0000_0000
  }

  lemma SamePosition(v: View)
    ensures v.(p := v.p - 0) == v
  {
  }

  /** Move the structure up, and the map's bytes into the room that leaves. */
  method Raise(c: Cxt, q: int, n: nat) returns (ok: bool, q': int)
    requires CanReserve(c, q, n) && c.isordered && c.Tight() && c.structs.End() + n < c.strings.start
    modifies c`blob, c`rsvmap, c`structs, c`nodeTbl
    ensures c.Valid() && |c.nodeTbl| == old(|c.nodeTbl|) && c.Tight()
    ensures ok && Reserved(old(c.TheView()).(p := old(c.TheView()).p - n), c.TheView(), q - old(c.rsvmap.start), n)
    ensures q' == c.rsvmap.start + (q - old(c.rsvmap.start))
  {
    hide Gap, ViewOf, Wf, Reserved, Bump, Move;
    ghost var l := c.TheLayout();
    StructFacts(l);
    StructUpSame(l, n);
    c.blob := Move(c.blob, c.structs.start + n - c.bph, c.structs.start - c.bph, c.structs.size);
    c.NodeUpdateAfter(c.structs.start, n);
    c.structs := Region(c.structs.start + n, c.structs.size);
    assert c.TheLayout() == StructUp(l, n);
    ok, q' := ShuffleMap(c, q, n);
  }

  lemma StructFacts(l: Layout)
    requires Wf(l)
    ensures l.bph <= l.structs.start && l.structs.End() <= l.bph + |l.blob| && l.strings.End() <= l.bph + |l.blob| && 0 <= l.strings.size
  {
  }

  lemma OrderFacts(l: Layout)
    requires Wf(l)
    ensures l.bph + HDR_SIZE <= l.rsvmap.start <= l.rsvmap.End() && 0 <= l.structs.size && 0 <= l.strings.size
    ensures l.strings.End() <= l.bph + |l.blob|
  {
  }

  // ----- Adding an entry

  /** An entry as it is in the map, high bytes first. */
  function EntryOf(physaddr: nat, size: nat): (e: seq<byte>)
    requires physaddr < 0x1_0000_0000_0000_0000 && size < 0x1_0000_0000_0000_0000
    ensures |e| == ENTRY
    ensures Word(e[..4]) * 0x1_0000_0000 + Word(e[4..8]) == physaddr && Word(e[8..12]) * 0x1_0000_0000 + Word(e[12..16]) == size
  {
    Halves(Bytes(physaddr / 0x1_0000_0000), Bytes(physaddr % 0x1_0000_0000), Bytes(size / 0x1_0000_0000), Bytes(size % 0x1_0000_0000));
    Bytes(physaddr / 0x1_0000_0000) + Bytes(physaddr % 0x1_0000_0000) + (Bytes(size / 0x1_0000_0000) + Bytes(size % 0x1_0000_0000))
  }

  lemma Halves(a: seq<byte>, b: seq<byte>, c: seq<byte>, d: seq<byte>)
    requires |a| == |b| == |c| == |d| == 4
    ensures var e := a + b + (c + d); e[..4] == a && e[4..8] == b && e[8..12] == c && e[12..16] == d
  {
  }

  /** The entries of a map that come before its end. */
  function Reserves(s: seq<byte>): seq<seq<byte>> {
    if |s| < ENTRY || IsZero(s[..ENTRY]) then [] else [s[..ENTRY]] + Reserves(s[ENTRY..])
  }

  lemma BytesZero(w: nat)
    requires w < 0x1_0000_0000
    ensures IsZero(Bytes(w)) <==> w == 0
  {
  }

  lemma ZeroConcat(a: seq<byte>, b: seq<byte>)
    ensures IsZero(a + b) <==> IsZero(a) && IsZero(b)
  {
    if IsZero(a + b) {
      assert forall i :: 0 <= i < |a| ==> a[i] == (a + b)[i];
      assert forall i :: 0 <= i < |b| ==> b[i] == (a + b)[|a| + i];
    }
  }

  /** Only an entry for nothing at address 0 is all zeros. */
  lemma EntryZero(physaddr: nat, size: nat)
    requires physaddr < 0x1_0000_0000_0000_0000 && size < 0x1_0000_0000_0000_0000
    ensures IsZero(EntryOf(physaddr, size)) <==> physaddr == 0 && size == 0
  {
    hide Bytes, IsZero;
    var a, b, x, y := Bytes(physaddr / 0x1_0000_0000), Bytes(physaddr % 0x1_0000_0000), Bytes(size / 0x1_0000_0000), Bytes(size % 0x1_0000_0000);
    BytesZero(physaddr / 0x1_0000_0000);
    BytesZero(physaddr % 0x1_0000_0000);
    BytesZero(size / 0x1_0000_0000);
    BytesZero(size % 0x1_0000_0000);
    ZeroConcat(a, b);
    ZeroConcat(x, y);
    ZeroConcat(a + b, x + y);
  }

  /** The map with an entry before its end. */
  function WithEntry(s: seq<byte>, e: seq<byte>): seq<byte>
    requires |s| >= ENTRY
  {
    s[..|s| - ENTRY] + e + s[|s| - ENTRY..]
  }

  /** Such a map has just that entry more; unless the entry is all zeros, which ends the map for all who
    * read it. */
  lemma {:induction false} EntryAdded(s: seq<byte>, e: seq<byte>)
    requires RsvOK(s) && |e| == ENTRY
    ensures |s| >= ENTRY
    ensures !IsZero(e) ==> RsvOK(WithEntry(s, e)) && Reserves(WithEntry(s, e)) == Reserves(s) + [e]
    ensures IsZero(e) ==> !RsvOK(WithEntry(s, e)) && Reserves(WithEntry(s, e)) == Reserves(s)
  {
    hide IsZero;
    var t := WithEntry(s, e);
    if IsZero(s[..ENTRY]) {
      assert s[..0] == [] && s[0..] == s && [] + e + s == e + s;
      assert t == e + s && t[..ENTRY] == e && t[ENTRY..] == s;
      assert Reserves(s) == [] && [] + [e] == [e];
    } else {
      var u := s[ENTRY..];
      LongMap(u);
      assert t[..ENTRY] == s[..ENTRY];
      assert t[ENTRY..] == WithEntry(u, e) by { Later(s, e); }
      EntryAdded(u, e);
      assert [s[..ENTRY]] + (Reserves(u) + [e]) == [s[..ENTRY]] + Reserves(u) + [e];
    }
  }

  lemma LongMap(s: seq<byte>)
    requires RsvOK(s)
    ensures |s| >= ENTRY
  {
  }

  lemma Later(s: seq<byte>, e: seq<byte>)
    requires |s| >= 2 * ENTRY && |e| == ENTRY
    ensures WithEntry(s, e)[ENTRY..] == WithEntry(s[ENTRY..], e)
  {
    var t, u := WithEntry(s, e)[ENTRY..], WithEntry(s[ENTRY..], e);
    forall i | 0 <= i < |t| ensures t[i] == u[i] {
    }
    assert t == u;
  }

  /** Reserve an area.  On success the map has just that entry more, if it is not empty and at address 0, and
    * nothing else has changed but the current position, which is left behind if the structure was moved. */
  method AddRsvmap(c: Cxt, physaddr: nat, size: nat) returns (ok: bool, ghost moved: nat)
    requires c.Valid() && RsvOK(c.TheView().rsvmap) && 0 < c.structs.size < 0x8000_0000 && c.Tight()
    requires physaddr < 0x1_0000_0000_0000_0000 && size < 0x1_0000_0000_0000_0000
    modifies c
    ensures c.Valid() && c.nodesUsed == old(c.nodesUsed) && |c.nodeTbl| == old(|c.nodeTbl|) && c.Tight()
    ensures ok ==> |old(c.TheView()).rsvmap| >= ENTRY &&
                   c.TheView() == old(c.TheView()).(rsvmap := WithEntry(old(c.TheView()).rsvmap, EntryOf(physaddr, size)),
                                                    p := old(c.TheView()).p - moved)
    ensures ok && (physaddr != 0 || size != 0) ==>
              && RsvOK(c.TheView().rsvmap)
              && Reserves(c.TheView().rsvmap) == Reserves(old(c.TheView()).rsvmap) + [EntryOf(physaddr, size)]
    ensures ok && physaddr == 0 && size == 0 ==> !RsvOK(c.TheView().rsvmap)
    ensures moved == if ok && !old(c.isordered && RoomBefore(c, ENTRY)) then ENTRY else 0
    ensures !ok ==> c.TheView() == old(c.TheView())
    ensures ok <==> if old(c.isordered) then old(RoomBefore(c, ENTRY) || RoomAbove(c, ENTRY)) else c.realloc(old(c.calls)) != 0
    ensures old(c.isordered) ==> c.calls == old(c.calls)
  {
    hide Gap, ViewOf, Wf, Reserved, Bytes, IsZero, RsvOK, EntryOf;
    ghost var v := c.TheView();
    LongMap(v.rsvmap);
    OrderFacts(c.TheLayout());
    MapSize(c.TheLayout());
    var p := c.rsvmap.End() - ENTRY;
    ok, p, moved := MakeReserve(c, p, ENTRY);
    if !ok {
      return;
    }
    ghost var l := c.TheLayout();
    var e := EntryOf(physaddr, size);
    EntryWritten(l, v, p, e, moved);
    c.blob := Put(c.blob, p - c.bph, e);
    EntryZero(physaddr, size);
    EntryAdded(v.rsvmap, e);
  }

  lemma MapSize(l: Layout)
    requires Wf(l)
    ensures |ViewOf(l).rsvmap| == l.rsvmap.size
  {
  }

  /** The entry put into the room made for it. */
  lemma EntryWritten(l: Layout, v: View, q: int, e: seq<byte>, moved: nat)
    requires Wf(l) && |e| == ENTRY <= |v.rsvmap| && q == l.rsvmap.start + |v.rsvmap| - ENTRY
    requires Reserved(v.(p := v.p - moved), ViewOf(l), |v.rsvmap| - ENTRY, ENTRY)
    ensures l.bph <= q && q + ENTRY <= l.bph + |l.blob|
    ensures var m := Write(l, q, e);
            Wf(m) && (InOrder(l) ==> InOrder(m)) && ViewOf(m) == v.(rsvmap := WithEntry(v.rsvmap, e), p := v.p - moved)
  {
    hide ViewOf, Wf, Gap, Put;
    var at := |v.rsvmap| - ENTRY;
    MapSize(l);
    OrderFacts(l);
    GapSize(v.rsvmap, ViewOf(l).rsvmap, at, ENTRY);
    GapFill(v.rsvmap, ViewOf(l).rsvmap, at, e);
    WriteMap(l, q, e);
  }

  lemma WriteMap(l: Layout, q: int, e: seq<byte>)
    requires Wf(l) && l.rsvmap.start <= q && q + |e| <= l.rsvmap.End()
    ensures l.bph <= q && q + |e| <= l.bph + |l.blob| && q - l.rsvmap.start + |e| <= |ViewOf(l).rsvmap|
    ensures var m := Write(l, q, e);
            && Wf(m) && (InOrder(l) ==> InOrder(m))
            && ViewOf(m) == ViewOf(l).(rsvmap := Put(ViewOf(l).rsvmap, q - l.rsvmap.start, e))
  {
    hide Shift, Content, Put;
    WriteElsewhere(l, q, e, l.structs);
    WriteElsewhere(l, q, e, l.strings);
    PutElsewhere(l.blob, q - l.bph, e, 0, HEADER_BYTES);
    WriteInside(l, q, e, l.rsvmap);
  }

  lemma GapSize(a: seq<byte>, b: seq<byte>, at: nat, n: int)
    requires Gap(a, b, at, n)
    ensures |b| == |a| + n
  {
  }
}
