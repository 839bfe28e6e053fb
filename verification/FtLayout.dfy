/** The layout of a flattened device tree blob as a value, and what moving parts of it does. */
module FtLayout {
  import opened Bits
  import opened FtBlob

  /** The header's bytes, and the room it takes. */
  const HEADER_BYTES: nat := 36
  const HDR_SIZE: nat := 40
  const EXPAND_INCR: nat := 1024

  /** The regions in which room is made. */
  datatype RegionId = Structure | Strings

  /** A buffer at address `bph`, its three regions, the anchor of string offsets, the current
    * position in the structure and the nodes handed out; all are addresses. */
  datatype Layout = Layout(bph: int, blob: seq<byte>, rsvmap: Region, structs: Region, strings: Region,
                           anchor: int, p: int, nodes: seq<int>)

  /** The same with positions in place of addresses: in the structure for the current position
    * and the nodes, in the strings for the anchor. */
  datatype View = View(header: seq<byte>, rsvmap: seq<byte>, structs: seq<byte>, strings: seq<byte>, p: int, anchor: int, nodes: seq<int>)

  ghost predicate Inside(l: Layout, r: Region) {
    l.bph + HDR_SIZE <= r.start && 0 <= r.size && r.End() <= l.bph + |l.blob|
  }

  ghost predicate Apart(r: Region, s: Region) {
    r.End() <= s.start || s.End() <= r.start
  }

  ghost predicate Wf(l: Layout) {
    && l.bph > 0 && HDR_SIZE <= |l.blob|
    && Inside(l, l.rsvmap) && Inside(l, l.structs) && Inside(l, l.strings)
    && Apart(l.rsvmap, l.structs) && Apart(l.structs, l.strings) && Apart(l.rsvmap, l.strings)
    && forall i :: 0 <= i < |l.nodes| ==> l.structs.start <= l.nodes[i] < l.structs.End()
  }

  /** The regions are in their standard order. */
  ghost predicate InOrder(l: Layout) {
    l.rsvmap.End() <= l.structs.start && l.structs.End() <= l.strings.start
  }

  /** The content of a region. */
  ghost function Content(l: Layout, r: Region): (s: seq<byte>)
    requires Inside(l, r)
    ensures |s| == r.size
  {
    l.blob[r.start - l.bph..r.End() - l.bph]
  }

  function Shift(nodes: seq<int>, n: int): (r: seq<int>)
    ensures |r| == |nodes|
    ensures forall i :: 0 <= i < |nodes| ==> r[i] == nodes[i] + n
  {
    seq(|nodes|, i requires 0 <= i < |nodes| => nodes[i] + n)
  }

  /** Nodes at or after `at` moved by `n`. */
  function Bump(nodes: seq<int>, at: int, n: int): (r: seq<int>)
    ensures |r| == |nodes|
    ensures forall i :: 0 <= i < |nodes| ==> r[i] == if nodes[i] >= at then nodes[i] + n else nodes[i]
  {
    seq(|nodes|, i requires 0 <= i < |nodes| => if nodes[i] >= at then nodes[i] + n else nodes[i])
  }

  /** Nodes before `at` moved by `n`. */
  function BumpBefore(nodes: seq<int>, at: int, n: int): (r: seq<int>)
    ensures |r| == |nodes|
    ensures forall i :: 0 <= i < |nodes| ==> r[i] == if nodes[i] < at then nodes[i] + n else nodes[i]
  {
    seq(|nodes|, i requires 0 <= i < |nodes| => if nodes[i] < at then nodes[i] + n else nodes[i])
  }

  ghost function ViewOf(l: Layout): View
    requires Wf(l)
  {
    View(l.blob[..HEADER_BYTES], Content(l, l.rsvmap), Content(l, l.structs), Content(l, l.strings), l.p - l.structs.start,
         l.anchor - l.strings.start, Shift(l.nodes, 0 - l.structs.start))
  }

  /** Room for `n` bytes has been made at position `at` of a region (or `-n` bytes removed), and
    * nothing else has changed: names keep their meaning, and nodes their place. */
  ghost predicate Opened(v: View, w: View, rgn: RegionId, at: nat, n: int) {
    && w.header == v.header && w.rsvmap == v.rsvmap
    && match rgn
       case Structure =>
         && w.strings == v.strings && w.anchor == v.anchor
         && Gap(v.structs, w.structs, at, n) && w.nodes == Bump(v.nodes, at, n)
       case Strings =>
         && w.structs == v.structs && w.nodes == v.nodes
         && Gap(v.strings, w.strings, at, n) && w.anchor == v.anchor + n
  }

  // ----- Sliding

  /** Following bytes of the structure move: up for `n > 0`, down for `n < 0`. */
  function StructAfter(l: Layout, q: int, n: int): Layout
    requires Wf(l) && InOrder(l) && l.structs.start <= q <= l.structs.End() && q - n <= l.structs.End()
    requires l.structs.End() + n <= l.strings.start
  {
    var e, at := l.structs.End() - l.bph, q - l.bph;
    l.(blob := if n < 0 then Move(l.blob, at, at - n, e - at + n) else Move(l.blob, at + n, at, e - at),
       structs := Region(l.structs.start, l.structs.size + n),
       nodes := Bump(l.nodes, q, n))
  }

  lemma BumpShift(nodes: seq<int>, q: int, n: int, s: int)
    ensures Shift(Bump(nodes, q, n), 0 - s) == Bump(Shift(nodes, 0 - s), q - s, n)
  {
  }

  lemma NodesAfter(nodes: seq<int>, q: int, n: int, s: int, e: int)
    requires forall i :: 0 <= i < |nodes| ==> s <= nodes[i] < e && !(q <= nodes[i] < q - n)
    requires s <= q <= e && q - n <= e
    ensures var b := Bump(nodes, q, n); forall i :: 0 <= i < |b| ==> s <= b[i] < e + n
  {
  }

  /** The bytes outside the structure and the free space after it stay. */
  lemma StructAfterBytes(l: Layout, q: int, n: int)
    requires Wf(l) && InOrder(l) && l.structs.start <= q <= l.structs.End() && q - n <= l.structs.End()
    requires l.structs.End() + n <= l.strings.start
    ensures var m := StructAfter(l, q, n);
            && |m.blob| == |l.blob| && m.blob[..HEADER_BYTES] == l.blob[..HEADER_BYTES]
            && m.blob[l.rsvmap.start - l.bph..l.rsvmap.End() - l.bph] == l.blob[l.rsvmap.start - l.bph..l.rsvmap.End() - l.bph]
            && m.blob[l.strings.start - l.bph..l.strings.End() - l.bph] == l.blob[l.strings.start - l.bph..l.strings.End() - l.bph]
            && Gap(l.blob[l.structs.start - l.bph..l.structs.End() - l.bph],
                   m.blob[l.structs.start - l.bph..l.structs.End() + n - l.bph], q - l.structs.start, n)
  {
    hide Move, Gap;
    var s, e, at := l.structs.start - l.bph, l.structs.End() - l.bph, q - l.bph;
    if n < 0 {
      Close(l.blob, s, e, at, 0 - n, l.rsvmap.start - l.bph, l.rsvmap.End() - l.bph, l.strings.start - l.bph, l.strings.End() - l.bph);
    } else {
      Open(l.blob, s, e, at, n, l.rsvmap.start - l.bph, l.rsvmap.End() - l.bph, l.strings.start - l.bph, l.strings.End() - l.bph);
    }
  }

  lemma Close(blob: seq<byte>, s: nat, e: nat, at: nat, n: nat, a: nat, b: nat, c: nat, d: nat)
    requires HDR_SIZE <= a <= b <= s <= at && at + n <= e <= c <= d <= |blob|
    ensures var m := Move(blob, at, at + n, e - at - n);
            m[..HEADER_BYTES] == blob[..HEADER_BYTES] && m[a..b] == blob[a..b] && m[c..d] == blob[c..d] && Gap(blob[s..e], m[s..e - n], at - s, 0 - n)
  {
    hide Move, Gap;
    GapClose(blob, s, e, at, n);
    MoveElsewhere(blob, at, at + n, e - at - n, 0, HEADER_BYTES);
    MoveElsewhere(blob, at, at + n, e - at - n, a, b);
    MoveElsewhere(blob, at, at + n, e - at - n, c, d);
  }

  lemma Open(blob: seq<byte>, s: nat, e: nat, at: nat, n: nat, a: nat, b: nat, c: nat, d: nat)
    requires HDR_SIZE <= a <= b <= s <= at <= e && e + n <= c <= d <= |blob|
    ensures var m := Move(blob, at + n, at, e - at);
            m[..HEADER_BYTES] == blob[..HEADER_BYTES] && m[a..b] == blob[a..b] && m[c..d] == blob[c..d] && Gap(blob[s..e], m[s..e + n], at - s, n)
  {
    hide Move, Gap;
    GapUp(blob, s, e, at, n);
    MoveElsewhere(blob, at + n, at, e - at, 0, HEADER_BYTES);
    MoveElsewhere(blob, at + n, at, e - at, a, b);
    MoveElsewhere(blob, at + n, at, e - at, c, d);
  }

  lemma StructAfterOpens(l: Layout, q: int, n: int)
    requires Wf(l) && InOrder(l) && l.structs.start <= q <= l.structs.End() && q - n <= l.structs.End()
    requires l.structs.End() + n <= l.strings.start
    requires forall i :: 0 <= i < |l.nodes| ==> !(q <= l.nodes[i] < q - n)
    ensures var m := StructAfter(l, q, n);
            && Wf(m) && InOrder(m)
            && Opened(ViewOf(l), ViewOf(m), Structure, q - l.structs.start, n) && ViewOf(m).p == ViewOf(l).p
  {
    hide Move, Gap, Bump, Shift, Content;
    var m := StructAfter(l, q, n);
    StructAfterBytes(l, q, n);
    Same(l, m, l.rsvmap);
    Same(l, m, l.strings);
    GapContent(l, m, l.structs, m.structs, q - l.structs.start, n);
    NodesAfter(l.nodes, q, n, l.structs.start, l.structs.End());
    BumpShift(l.nodes, q, n, l.structs.start);
  }

  /** Preceding bytes of the structure move down by `n`. */
  function StructBefore(l: Layout, q: int, n: int): Layout
    requires Wf(l) && InOrder(l) && l.structs.start <= q <= l.structs.End() && 0 <= n
    requires l.rsvmap.End() <= l.structs.start - n
  {
    var s := l.structs.start - l.bph;
    l.(blob := Move(l.blob, s - n, s, q - l.structs.start),
       structs := Region(l.structs.start - n, l.structs.size + n),
       nodes := BumpBefore(l.nodes, q, 0 - n))
  }

  lemma OpenDown(blob: seq<byte>, s: nat, e: nat, at: nat, n: nat, a: nat, b: nat, c: nat, d: nat)
    requires HDR_SIZE <= a <= b <= s - n && s <= at <= e <= c <= d <= |blob|
    ensures var m := Move(blob, s - n, s, at - s);
            m[..HEADER_BYTES] == blob[..HEADER_BYTES] && m[a..b] == blob[a..b] && m[c..d] == blob[c..d] && Gap(blob[s..e], m[s - n..e], at - s, n)
  {
    hide Move, Gap;
    GapDown(blob, s, e, at, n);
    MoveElsewhere(blob, s - n, s, at - s, 0, HEADER_BYTES);
    MoveElsewhere(blob, s - n, s, at - s, a, b);
    MoveElsewhere(blob, s - n, s, at - s, c, d);
  }

  lemma BumpBeforeShift(nodes: seq<int>, q: int, n: int, s: int, e: int)
    requires 0 <= n && s <= q && forall i :: 0 <= i < |nodes| ==> s <= nodes[i] < e
    ensures Shift(BumpBefore(nodes, q, 0 - n), n - s) == Bump(Shift(nodes, 0 - s), q - s, n)
    ensures var b := BumpBefore(nodes, q, 0 - n); forall i :: 0 <= i < |b| ==> s - n <= b[i] < e
  {
  }

  lemma StructBeforeOpens(l: Layout, q: int, n: int)
    requires Wf(l) && InOrder(l) && l.structs.start <= q <= l.structs.End() && 0 <= n
    requires l.rsvmap.End() <= l.structs.start - n
    ensures var m := StructBefore(l, q, n);
            && Wf(m) && InOrder(m)
            && Opened(ViewOf(l), ViewOf(m), Structure, q - l.structs.start, n)
  {
    hide Move, Gap, Bump, BumpBefore, Shift, Content;
    var m := StructBefore(l, q, n);
    OpenDown(l.blob, l.structs.start - l.bph, l.structs.End() - l.bph, q - l.bph, n,
             l.rsvmap.start - l.bph, l.rsvmap.End() - l.bph, l.strings.start - l.bph, l.strings.End() - l.bph);
    Same(l, m, l.rsvmap);
    Same(l, m, l.strings);
    GapContent(l, m, l.structs, m.structs, q - l.structs.start, n);
    BumpBeforeShift(l.nodes, q, n, l.structs.start, l.structs.End());
  }

  /** The strings move up by `n`, which makes room before the first. */
  function StringsAfter(l: Layout, n: int): Layout
    requires Wf(l) && InOrder(l) && 0 <= n && l.strings.End() + n <= l.bph + |l.blob|
  {
    var s := l.strings.start - l.bph;
    l.(blob := Move(l.blob, s + n, s, l.strings.size),
       strings := Region(l.strings.start, l.strings.size + n),
       anchor := l.anchor + n)
  }

  lemma StringsAfterOpens(l: Layout, n: int)
    requires Wf(l) && InOrder(l) && 0 <= n && l.strings.End() + n <= l.bph + |l.blob|
    ensures var m := StringsAfter(l, n);
            && Wf(m) && InOrder(m)
            && Opened(ViewOf(l), ViewOf(m), Strings, 0, n) && ViewOf(m).p == ViewOf(l).p
  {
    hide Move, Gap, Shift, Bump, BumpBefore, Content;
    var m := StringsAfter(l, n);
    OpenLast(l.blob, l.strings.start - l.bph, l.strings.End() - l.bph, n,
             l.rsvmap.start - l.bph, l.rsvmap.End() - l.bph, l.structs.start - l.bph, l.structs.End() - l.bph);
    Same(l, m, l.rsvmap);
    Same(l, m, l.structs);
    GapContent(l, m, l.strings, m.strings, 0, n);
  }

  lemma Same(l: Layout, m: Layout, r: Region)
    requires Inside(l, r) && Inside(m, r) && m.bph == l.bph
    requires m.blob[r.start - l.bph..r.End() - l.bph] == l.blob[r.start - l.bph..r.End() - l.bph]
    ensures Content(m, r) == Content(l, r)
  {
  }

  lemma Moved(l: Layout, m: Layout, r: Region, r': Region)
    requires Inside(l, r) && Inside(m, r')
    requires m.blob[r'.start - m.bph..r'.End() - m.bph] == l.blob[r.start - l.bph..r.End() - l.bph]
    ensures Content(m, r') == Content(l, r)
  {
  }

  lemma GapContent(l: Layout, m: Layout, r: Region, r': Region, at: nat, n: int)
    requires Inside(l, r) && Inside(m, r') && m.bph == l.bph
    requires Gap(l.blob[r.start - l.bph..r.End() - l.bph], m.blob[r'.start - l.bph..r'.End() - l.bph], at, n)
    ensures Gap(Content(l, r), Content(m, r'), at, n)
  {
    hide Gap;
  }

  lemma OpenLast(blob: seq<byte>, s: nat, e: nat, n: nat, a: nat, b: nat, c: nat, d: nat)
    requires HDR_SIZE <= a <= b <= c <= d <= s <= e && e + n <= |blob|
    ensures var m := Move(blob, s + n, s, e - s);
            m[..HEADER_BYTES] == blob[..HEADER_BYTES] && m[a..b] == blob[a..b] && m[c..d] == blob[c..d] && Gap(blob[s..e], m[s..e + n], 0, n)
  {
    hide Move, Gap;
    GapUp(blob, s, e, s, n);
    MoveElsewhere(blob, s + n, s, e - s, 0, HEADER_BYTES);
    MoveElsewhere(blob, s + n, s, e - s, a, b);
    MoveElsewhere(blob, s + n, s, e - s, c, d);
  }

  /** The free space before the strings becomes theirs. */
  function StringsBefore(l: Layout, n: int): Layout
    requires Wf(l) && InOrder(l) && 0 <= n && l.structs.End() <= l.strings.start - n
  {
    l.(strings := Region(l.strings.start - n, l.strings.size + n))
  }

  lemma StringsBeforeOpens(l: Layout, n: int)
    requires Wf(l) && InOrder(l) && 0 <= n && l.structs.End() <= l.strings.start - n
    ensures var m := StringsBefore(l, n);
            && Wf(m) && InOrder(m)
            && Opened(ViewOf(l), ViewOf(m), Strings, 0, n) && ViewOf(m).p == ViewOf(l).p
  {
    hide Shift, Gap, Bump, BumpBefore, Content;
    ContentsSame(l, StringsBefore(l, n));
    StringsBeforeGap(l, n);
  }

  lemma ContentsSame(l: Layout, m: Layout)
    requires m.blob == l.blob && m.bph == l.bph
    ensures forall r :: Inside(l, r) ==> Inside(m, r) && Content(m, r) == Content(l, r)
  {
  }

  lemma StringsBeforeGap(l: Layout, n: int)
    requires Wf(l) && InOrder(l) && 0 <= n && l.structs.End() <= l.strings.start - n
    ensures var m := StringsBefore(l, n);
            Inside(m, m.strings) && Gap(Content(l, l.strings), Content(m, m.strings), 0, n)
  {
    hide Gap;
    GapOpen(l.blob, l.strings.start - l.bph, l.strings.End() - l.bph, n);
  }

  lemma GapOpen(blob: seq<byte>, s: nat, e: nat, n: nat)
    requires n <= s <= e <= |blob|
    ensures Gap(blob[s..e], blob[s - n..e], 0, n)
  {
  }

  // ----- Moves that change nothing one can see

  /** The strings move up to the end of the buffer. */
  function StringsToEnd(l: Layout): Layout
    requires Wf(l)
  {
    var to := |l.blob| - l.strings.size;
    l.(blob := Move(l.blob, to, l.strings.start - l.bph, l.strings.size),
       strings := Region(l.bph + to, l.strings.size),
       anchor := l.anchor + (l.bph + to - l.strings.start))
  }

  lemma StringsToEndSame(l: Layout)
    requires Wf(l) && InOrder(l)
    ensures var m := StringsToEnd(l);
            Wf(m) && InOrder(m) && ViewOf(m) == ViewOf(l) && l.strings.start <= m.strings.start
  {
    hide Move, Shift, Bump, BumpBefore, Content;
    var m := StringsToEnd(l);
    MoveLast(l.blob, l.strings.start - l.bph, l.strings.size, |l.blob| - l.strings.size,
             l.rsvmap.start - l.bph, l.rsvmap.End() - l.bph, l.structs.start - l.bph, l.structs.End() - l.bph);
    Same(l, m, l.rsvmap);
    Same(l, m, l.structs);
    Moved(l, m, l.strings, m.strings);
  }

  lemma MoveLast(blob: seq<byte>, s: nat, n: nat, to: nat, a: nat, b: nat, c: nat, d: nat)
    requires HDR_SIZE <= a <= b <= c <= d <= s <= to && to + n <= |blob|
    ensures var m := Move(blob, to, s, n);
            m[..HEADER_BYTES] == blob[..HEADER_BYTES] && m[a..b] == blob[a..b] && m[c..d] == blob[c..d] && m[to..to + n] == blob[s..s + n]
  {
    PutThere(blob, to, blob[s..s + n]);
    MoveElsewhere(blob, to, s, n, 0, HEADER_BYTES);
    MoveElsewhere(blob, to, s, n, a, b);
    MoveElsewhere(blob, to, s, n, c, d);
  }

  /** The buffer has grown by `more` and is at address `newp`.  Region starts, the anchor and the
    * nodes follow, the current position does not. */
  function Reallocated(l: Layout, newp: int, more: seq<byte>): Layout
    requires Wf(l)
  {
    var shift := newp - l.bph;
    l.(bph := newp, blob := l.blob + more,
       rsvmap := Region(l.rsvmap.start + shift, l.rsvmap.size),
       structs := Region(l.structs.start + shift, l.structs.size),
       strings := Region(l.strings.start + shift, l.strings.size),
       anchor := l.anchor + shift,
       nodes := Bump(l.nodes, l.structs.start, shift))
  }

  lemma ReallocatedSame(l: Layout, newp: int, more: seq<byte>)
    requires Wf(l) && InOrder(l) && newp > 0
    ensures var m := Reallocated(l, newp, more);
            && Wf(m) && InOrder(m)
            && ViewOf(m) == ViewOf(l).(p := ViewOf(l).p - (newp - l.bph))
  {
    hide Bump, BumpBefore, Shift, Content;
    ReallocatedContent(l, newp, more, l.rsvmap);
    ReallocatedContent(l, newp, more, l.structs);
    ReallocatedContent(l, newp, more, l.strings);
    AllShift(l.nodes, l.structs.start, newp - l.bph, l.structs.End());
  }

  lemma AllShift(nodes: seq<int>, s: int, n: int, e: int)
    requires forall i :: 0 <= i < |nodes| ==> s <= nodes[i] < e
    ensures var b := Bump(nodes, s, n);
            (forall i :: 0 <= i < |b| ==> s + n <= b[i] < e + n) && Shift(b, 0 - (s + n)) == Shift(nodes, 0 - s)
  {
  }

  lemma ReallocatedContent(l: Layout, newp: int, more: seq<byte>, r: Region)
    requires Wf(l) && Inside(l, r)
    ensures var m, r' := Reallocated(l, newp, more), Region(r.start + (newp - l.bph), r.size);
            Inside(m, r') && Content(m, r') == Content(l, r)
  {
    SliceKept(l.blob, more, r.start - l.bph, r.End() - l.bph);
  }

  lemma SliceKept(blob: seq<byte>, more: seq<byte>, from: nat, to: nat)
    requires from <= to <= |blob|
    ensures (blob + more)[from..to] == blob[from..to]
  {
  }

  /** The regions of a blob in any order copied to a new buffer of `tot` bytes at `newp`: all but
    * the strings at its start, the strings at its end. */
  function Reordered(l: Layout, newp: int, raw: seq<byte>): Layout
    requires Wf(l) && HDR_SIZE + l.rsvmap.size + l.structs.size + l.strings.size <= |raw|
  {
    var at := HDR_SIZE + l.rsvmap.size;
    var end := |raw| - l.strings.size;
    var shift := newp + at - l.structs.start;
    var b1 := Put(raw, 0, l.blob[..HEADER_BYTES]);
    var b2 := Put(b1, HDR_SIZE, l.blob[l.rsvmap.start - l.bph..l.rsvmap.End() - l.bph]);
    var b3 := Put(b2, at, l.blob[l.structs.start - l.bph..l.structs.End() - l.bph]);
    var b4 := Put(b3, end, l.blob[l.strings.start - l.bph..l.strings.End() - l.bph]);
    Layout(newp, b4, Region(newp + HDR_SIZE, l.rsvmap.size), Region(newp + at, l.structs.size),
           Region(newp + end, l.strings.size), newp + end + (l.anchor - l.strings.start), l.p + shift,
           Bump(l.nodes, l.structs.start, shift))
  }

  lemma FourPuts(raw: seq<byte>, h: seq<byte>, r: seq<byte>, s: seq<byte>, z: seq<byte>)
    requires |h| == HEADER_BYTES && HDR_SIZE + |r| + |s| + |z| <= |raw|
    ensures var at, end := HDR_SIZE + |r|, |raw| - |z|;
            var b := Put(Put(Put(Put(raw, 0, h), HDR_SIZE, r), at, s), end, z);
            b[..HEADER_BYTES] == h && b[HDR_SIZE..at] == r && b[at..at + |s|] == s && b[end..end + |z|] == z
  {
    hide Put;
    var at, end := HDR_SIZE + |r|, |raw| - |z|;
    var b1 := Put(raw, 0, h);
    var b2 := Put(b1, HDR_SIZE, r);
    var b3 := Put(b2, at, s);
    PutThere(raw, 0, h);
    PutThere(b1, HDR_SIZE, r);
    PutThere(b2, at, s);
    PutThere(b3, end, z);
    PutElsewhere(b1, HDR_SIZE, r, 0, HEADER_BYTES);
    PutElsewhere(b2, at, s, 0, HEADER_BYTES);
    PutElsewhere(b3, end, z, 0, HEADER_BYTES);
    PutElsewhere(b2, at, s, HDR_SIZE, at);
    PutElsewhere(b3, end, z, HDR_SIZE, at);
    PutElsewhere(b3, end, z, at, at + |s|);
  }

  lemma ReorderedSame(l: Layout, newp: int, raw: seq<byte>)
    requires Wf(l) && newp > 0 && HDR_SIZE + l.rsvmap.size + l.structs.size + l.strings.size <= |raw|
    ensures var m := Reordered(l, newp, raw);
            Wf(m) && InOrder(m) && ViewOf(m) == ViewOf(l)
  {
    hide Put, Bump, Shift, Content;
    ReorderedParts(l, newp, raw);
    var m := Reordered(l, newp, raw);
    hide Reordered;
    Moved(l, m, l.rsvmap, m.rsvmap);
    Moved(l, m, l.structs, m.structs);
    Moved(l, m, l.strings, m.strings);
  }

  /** The copy's regions, and what is in them. */
  lemma ReorderedParts(l: Layout, newp: int, raw: seq<byte>)
    requires Wf(l) && newp > 0 && HDR_SIZE + l.rsvmap.size + l.structs.size + l.strings.size <= |raw|
    ensures var m := Reordered(l, newp, raw);
            && Wf(m) && InOrder(m) && m.blob[..HEADER_BYTES] == l.blob[..HEADER_BYTES]
            && m.blob[m.rsvmap.start - m.bph..m.rsvmap.End() - m.bph] == l.blob[l.rsvmap.start - l.bph..l.rsvmap.End() - l.bph]
            && m.blob[m.structs.start - m.bph..m.structs.End() - m.bph] == l.blob[l.structs.start - l.bph..l.structs.End() - l.bph]
            && m.blob[m.strings.start - m.bph..m.strings.End() - m.bph] == l.blob[l.strings.start - l.bph..l.strings.End() - l.bph]
            && m.p - m.structs.start == l.p - l.structs.start && m.anchor - m.strings.start == l.anchor - l.strings.start
            && Shift(m.nodes, 0 - m.structs.start) == Shift(l.nodes, 0 - l.structs.start)
  {
    hide Put, Bump, Shift;
    var m := Reordered(l, newp, raw);
    FourPuts(raw, l.blob[..HEADER_BYTES], l.blob[l.rsvmap.start - l.bph..l.rsvmap.End() - l.bph],
             l.blob[l.structs.start - l.bph..l.structs.End() - l.bph], l.blob[l.strings.start - l.bph..l.strings.End() - l.bph]);
    AllShift(l.nodes, l.structs.start, m.structs.start - l.structs.start, l.structs.End());
  }

  // ----- Writing

  /** Bytes written at address `q`. */
  function Write(l: Layout, q: int, data: seq<byte>): Layout
    requires l.bph <= q && q + |data| <= l.bph + |l.blob|
  {
    l.(blob := Put(l.blob, q - l.bph, data))
  }

  lemma WriteStruct(l: Layout, q: int, data: seq<byte>)
    requires Wf(l) && l.structs.start <= q && q + |data| <= l.structs.End()
    ensures var m := Write(l, q, data);
            Wf(m) && ViewOf(m) == ViewOf(l).(structs := Put(ViewOf(l).structs, q - l.structs.start, data))
  {
    hide Put, Shift, Content;
    var m := Write(l, q, data);
    WriteElsewhere(l, q, data, l.rsvmap);
    WriteElsewhere(l, q, data, l.strings);
    PutElsewhere(l.blob, q - l.bph, data, 0, HEADER_BYTES);
    WriteInside(l, q, data, l.structs);
  }

  lemma WriteStrings(l: Layout, q: int, data: seq<byte>)
    requires Wf(l) && l.strings.start <= q && q + |data| <= l.strings.End()
    ensures var m := Write(l, q, data);
            Wf(m) && ViewOf(m) == ViewOf(l).(strings := Put(ViewOf(l).strings, q - l.strings.start, data))
  {
    hide Put, Shift, Content;
    var m := Write(l, q, data);
    WriteElsewhere(l, q, data, l.rsvmap);
    WriteElsewhere(l, q, data, l.structs);
    PutElsewhere(l.blob, q - l.bph, data, 0, HEADER_BYTES);
    WriteInside(l, q, data, l.strings);
  }

  lemma WriteElsewhere(l: Layout, q: int, data: seq<byte>, r: Region)
    requires Inside(l, r) && l.bph <= q && q + |data| <= l.bph + |l.blob|
    requires r.End() <= q || q + |data| <= r.start
    ensures Inside(Write(l, q, data), r) && Content(Write(l, q, data), r) == Content(l, r)
  {
    hide Put;
    PutElsewhere(l.blob, q - l.bph, data, r.start - l.bph, r.End() - l.bph);
  }

  lemma WriteInside(l: Layout, q: int, data: seq<byte>, r: Region)
    requires Inside(l, r) && r.start <= q && q + |data| <= r.End()
    ensures Inside(Write(l, q, data), r) && Content(Write(l, q, data), r) == Put(Content(l, r), q - r.start, data)
  {
    PutSlice(l.blob, q - l.bph, data, r.start - l.bph, r.End() - l.bph);
  }

  lemma PutSlice(blob: seq<byte>, at: nat, data: seq<byte>, from: nat, to: nat)
    requires from <= at && at + |data| <= to <= |blob|
    ensures Put(blob, at, data)[from..to] == Put(blob[from..to], at - from, data)
  {
  }

  /** Bytes written over the end of the structure and what comes after it. */
  lemma WriteOver(l: Layout, q: int, data: seq<byte>)
    requires Wf(l) && InOrder(l) && l.bph <= q <= l.structs.End() <= q + |data| <= l.bph + |l.blob|
    ensures var m, d := Write(l, q, data), l.structs.End() - q;
            var e := if d <= l.structs.size then d else l.structs.size;
            && Wf(m) && InOrder(m) && ViewOf(m).anchor == ViewOf(l).anchor
            && ViewOf(m).structs == ViewOf(l).structs[..l.structs.size - e] + data[d - e..d]
  {
    hide Wf, InOrder, ViewOf, Put;
    StructsOf(l);
    var s, t, at := l.structs.start - l.bph, l.structs.End() - l.bph, q - l.bph;
    EndWritten(l.blob, s, t, at, data);
    WriteWf(l, q, data);
  }

  lemma StructsOf(l: Layout)
    requires Wf(l)
    ensures l.bph <= l.structs.start <= l.structs.End() <= l.bph + |l.blob| && l.structs.size >= 0
    ensures ViewOf(l).structs == l.blob[l.structs.start - l.bph..l.structs.End() - l.bph]
  {
    hide Shift;
  }

  lemma WriteWf(l: Layout, q: int, data: seq<byte>)
    requires Wf(l) && InOrder(l) && l.bph <= q && q + |data| <= l.bph + |l.blob|
    ensures var m := Write(l, q, data);
            && Wf(m) && InOrder(m) && ViewOf(m).anchor == ViewOf(l).anchor
            && ViewOf(m).structs == Put(l.blob, q - l.bph, data)[l.structs.start - l.bph..l.structs.End() - l.bph]
  {
    hide Shift, Put;
  }

  lemma EndWritten(blob: seq<byte>, s: nat, t: nat, at: nat, data: seq<byte>)
    requires s <= t <= at + |data| <= |blob| && at <= t
    ensures var d, e := t - at, if t - at <= t - s then t - at else t - s;
            Put(blob, at, data)[s..t] == blob[s..t][..t - s - e] + data[d - e..d]
  {
    var d, e := t - at, if t - at <= t - s then t - at else t - s;
    var z := Put(blob, at, data);
    var x, y := z[s..t], blob[s..t][..t - s - e] + data[d - e..d];
    forall k | 0 <= k < t - s ensures x[k] == y[k] {
      assert x[k] == z[s + k] == if s + k < at then blob[s + k] else data[s + k - at];
    }
    assert x == y;
  }
}
