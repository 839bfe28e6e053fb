/** Making room in a flattened device tree blob.
  *
  * The reserve map, the structure and the strings share one buffer with free space between them.
  * Making room slides bytes, and when there is no room left the whole buffer is reallocated,
  * which may move it.  Pointers are addresses and have to be kept up to date.
  */
module FtSpace {
  import opened Bits
  import opened FtBlob
  import opened FtLayout

  /** Room can be asked for at position `at`: where bytes are to be removed there is no node, and
    * strings are only added before the first. */
  ghost predicate CanOpenAt(v: View, rgn: RegionId, at: int, n: int) {
    && 0 <= at
    && (if rgn == Structure then at <= |v.structs| && at - n <= |v.structs| else at == 0 && n >= 0)
    && forall i :: 0 <= i < |v.nodes| ==> rgn == Structure ==> !(at <= v.nodes[i] < at - n)
  }

  /** Memory is handed out at multiples of 8. */
  type Address = x: nat | x % 8 == 0

  class Cxt {
    /** Where the buffer is, and what is in it. */
    var bph: int
    var blob: seq<byte>

    var isordered: bool
    var strAnchor: int

    /** The current insertion point in the structure. */
    var p: int
    var rsvmap: Region
    var structs: Region
    var strings: Region

    /** Addresses of nodes; entry 0 is not used. */
    var nodeTbl: seq<int>
    var nodesUsed: nat

    /** What the allocator returns on its next calls, 0 for none, and what new memory holds. */
    const realloc: nat -> Address
    const junk: nat -> byte
    var calls: nat

    /** A context for the blob at `bph`, with its regions where they are, room for `nodeMax` nodes to
      * be handed out, and none handed out yet. */
    constructor (bph: int, blob: seq<byte>, rsvmap: Region, structs: Region, strings: Region, nodeMax: nat,
                 realloc: nat -> Address, junk: nat -> byte)
      ensures 1 <= nodesUsed <= |nodeTbl|
      ensures TheLayout() == Layout(bph, blob, rsvmap, structs, strings, strings.start, structs.start, [])
      ensures Wf(TheLayout()) ==> Valid()
      ensures !isordered && nodesUsed == 1 && |nodeTbl| == nodeMax + 1
      ensures this.realloc == realloc && this.junk == junk && calls == 1
    {
      this.bph, this.blob, this.rsvmap, this.structs, this.strings := bph, blob, rsvmap, structs, strings;
      this.realloc, this.junk, calls := realloc, junk, 1;
      isordered, p, strAnchor := false, structs.start, strings.start;
      nodeTbl, nodesUsed := seq(nodeMax + 1, _ => 0), 1;
    }

    ghost function TheLayout(): Layout
      requires 1 <= nodesUsed <= |nodeTbl|
      reads this
    {
      Layout(bph, blob, rsvmap, structs, strings, strAnchor, p, nodeTbl[1..nodesUsed])
    }

    ghost predicate Valid()
      reads this
    {
      && 1 <= nodesUsed <= |nodeTbl|
      && Wf(TheLayout())
      && (isordered ==> InOrder(TheLayout()) && (bph + |blob|) % 8 == 0)
    }

    ghost function TheView(): View
      requires Valid()
      reads this
    {
      ViewOf(TheLayout())
    }

    /** One of the allocator's calls from number `from` up to number `to` returned nothing. */
    ghost predicate Refused(from: nat, to: nat) {
      exists k :: from <= k < to && realloc(k) == 0
    }

    lemma RefusedOnce(k: nat)
      ensures Refused(k, k + 1) <==> realloc(k) == 0
    {
    }

    lemma RefusedJoin(a: nat, b: nat, c: nat)
      requires a <= b <= c
      ensures Refused(a, c) <==> Refused(a, b) || Refused(b, c)
    {
    }

    ghost function Of(rgn: RegionId): Region
      reads this`structs, this`strings
    {
      if rgn == Structure then structs else strings
    }

    /** Nodes at or after an address have moved. */
    method NodeUpdateAfter(addr: int, shift: int)
      requires 1 <= nodesUsed <= |nodeTbl|
      modifies this`nodeTbl
      ensures |nodeTbl| == old(|nodeTbl|) && nodeTbl[1..nodesUsed] == Bump(old(nodeTbl[1..nodesUsed]), addr, shift)
    {
      if shift == 0 {
        return;
      }
      var i := 1;
      while i < nodesUsed
        invariant 1 <= i <= nodesUsed <= |nodeTbl| == old(|nodeTbl|)
        invariant forall k :: i <= k < |nodeTbl| ==> nodeTbl[k] == old(nodeTbl[k])
        invariant forall k :: 1 <= k < i ==> nodeTbl[k] == old(if nodeTbl[k] >= addr then nodeTbl[k] + shift else nodeTbl[k])
      {
        if nodeTbl[i] >= addr {
          nodeTbl := nodeTbl[i := nodeTbl[i] + shift];
        }
        i := i + 1;
      }
    }

    /** Nodes before an address have moved. */
    method NodeUpdateBefore(addr: int, shift: int)
      requires 1 <= nodesUsed <= |nodeTbl|
      modifies this`nodeTbl
      ensures |nodeTbl| == old(|nodeTbl|) && nodeTbl[1..nodesUsed] == BumpBefore(old(nodeTbl[1..nodesUsed]), addr, shift)
    {
      if shift == 0 {
        return;
      }
      var i := 1;
      while i < nodesUsed
        invariant 1 <= i <= nodesUsed <= |nodeTbl| == old(|nodeTbl|)
        invariant forall k :: i <= k < |nodeTbl| ==> nodeTbl[k] == old(nodeTbl[k])
        invariant forall k :: 1 <= k < i ==> nodeTbl[k] == old(if nodeTbl[k] < addr then nodeTbl[k] + shift else nodeTbl[k])
      {
        if nodeTbl[i] < addr {
          nodeTbl := nodeTbl[i := nodeTbl[i] + shift];
        }
        i := i + 1;
      }
    }

    /** Where following bytes can move up to. */
    function NextStart(rgn: RegionId): int
      reads this`strings, this`bph, this`blob
    {
      if rgn == Structure then strings.start else bph + |blob|
    }

    /** Where preceding bytes can move down to. */
    function PrevEnd(rgn: RegionId): int
      reads this`rsvmap, this`structs
    {
      if rgn == Structure then rsvmap.End() else structs.End()
    }

    /** Room is asked for at `q`; where bytes are to be removed there is no node.  Strings are only
      * added before the first, but `q` may be the place that was before strings moved up. */
    ghost predicate CanOpen(q: int, rgn: RegionId, n: int)
      reads this
    {
      && Valid()
      && match rgn
         case Structure =>
           && structs.start <= q <= structs.End() && q - n <= structs.End()
           && (forall i :: 1 <= i < nodesUsed ==> !(q <= nodeTbl[i] < q - n))
         case Strings =>
           n >= 0 && (q == strings.start || (q < strings.start && strings.End() + n > bph + |blob|))
    }

    /** The position in its region. */
    ghost function Position(q: int, rgn: RegionId): int
      reads this`structs
    {
      if rgn == Structure then q - structs.start else 0
    }

    /** Move following bytes. */
    method ShuffleAfter(q: int, rgn: RegionId, n: int)
      requires CanOpen(q, rgn, n) && isordered && Of(rgn).End() + n <= NextStart(rgn)
      modifies this`blob, this`structs, this`strings, this`strAnchor, this`nodeTbl
      ensures |nodeTbl| == old(|nodeTbl|) && |blob| == old(|blob|) && Of(rgn).start == old(Of(rgn).start)
      ensures TheLayout() == if rgn == Structure then StructAfter(old(TheLayout()), q, n) else StringsAfter(old(TheLayout()), n)
    {
      hide Bump, Move;
      var end, at := (if rgn == Structure then structs.End() else strings.End()) - bph, q - bph;
      if q < bph + end {
        if n < 0 {
          blob := Move(blob, at, at - n, end - at + n);
        } else {
          blob := Move(blob, at + n, at, end - at);
        }
        if rgn == Structure {
          NodeUpdateAfter(q, n);
        }
      } else {
        MoveNothing(blob, at, n);
        NoNodes(nodeTbl[1..nodesUsed], q, n);
      }
      if rgn == Structure {
        structs := Region(structs.start, structs.size + n);
      } else {
        strings := Region(strings.start, strings.size + n);
        // assumes strings are only added at the beginning
        strAnchor := strAnchor + n;
      }
    }

    /** Move preceding bytes. */
    method ShuffleBefore(q: int, rgn: RegionId, n: int)
      requires CanOpen(q, rgn, n) && isordered && 0 <= n && PrevEnd(rgn) <= Of(rgn).start - n
      modifies this`blob, this`structs, this`strings, this`nodeTbl
      ensures |nodeTbl| == old(|nodeTbl|) && |blob| == old(|blob|) && Of(rgn).start == old(Of(rgn).start) - n
      ensures TheLayout() == if rgn == Structure then StructBefore(old(TheLayout()), q, n) else StringsBefore(old(TheLayout()), n)
      ensures rgn == Strings ==> strings == Region(old(strings.start) - n, old(strings.size) + n)
    {
      hide BumpBefore, Move;
      var start := if rgn == Structure then structs.start else strings.start;
      if q > start {
        blob := Move(blob, start - n - bph, start - bph, q - start);
        if rgn == Structure {
          NodeUpdateBefore(q, 0 - n);
        }
      } else {
        MoveNothing(blob, start - n - bph, 0 - n);
        if rgn == Structure { NoNodesBefore(nodeTbl[1..nodesUsed], q, n); }
      }
      if rgn == Structure {
        structs := Region(structs.start - n, structs.size + n);
      } else {
        strings := Region(strings.start - n, strings.size + n);
      }
    }

    /** Open the gap where the regions are, without moving the buffer. */
    method Shuffle(q: int, rgn: RegionId, n: int) returns (ok: bool, q': int)
      requires CanOpen(q, rgn, n) && isordered
      modifies this`blob, this`structs, this`strings, this`strAnchor, this`nodeTbl
      ensures Valid() && bph == old(bph) && |blob| == old(|blob|)
      ensures |nodeTbl| == old(|nodeTbl|)
      ensures ok ==> Opened(old(TheView()), TheView(), rgn, old(Position(q, rgn)), n)
                     && q' == Of(rgn).start + (q - old(Of(rgn).start))
                     && (rgn == Strings ==> TheView().p == old(TheView().p) && structs == old(structs))
      ensures ok && rgn == Strings && n > 0 && old(strings.End()) + n > old(bph + |blob|) ==>
                q' == q - n && strings == Region(old(strings.start) - n, old(strings.size) + n)
      ensures !ok ==> TheLayout() == old(TheLayout()) && q' == q
      ensures !ok <==> n > 0 && old(Of(rgn).End()) + n > old(NextStart(rgn)) && old(PrevEnd(rgn)) > old(Of(rgn).start) - n
      ensures old(Tight()) ==> Tight()
    {
      hide Bump, BumpBefore, Move, Gap, Content, StructAfter, StructBefore, StringsAfter, StringsBefore;
      ghost var l := TheLayout();
      q' := q;
      var end := if rgn == Structure then structs.End() else strings.End();
      var start := if rgn == Structure then structs.start else strings.start;
      if n <= 0 || end + n <= NextStart(rgn) {
        if rgn == Structure { StructAfterOpens(l, q, n); } else { StringsAfterOpens(l, n); }
        ShuffleAfter(q, rgn, n);
        return true, q';
      }
      if PrevEnd(rgn) <= start - n {
        if rgn == Structure { StructBeforeOpens(l, q, n); } else { StringsBeforeOpens(l, n); }
        ShuffleBefore(q, rgn, n);
        q' := q - n;
        return true, q';
      }
      ok := false;
    }
  
    /** New memory. */
    method Allocate(size: nat) returns (newp: Address, raw: seq<byte>)
      modifies this`calls
      ensures |raw| == size && newp == realloc(old(calls)) && calls == old(calls) + 1
    {
      newp := realloc(calls);
      calls := calls + 1;
      raw := [];
      while |raw| < size
        invariant |raw| <= size
      {
        raw := raw + [junk(|raw|)];
      }
    }

    /** Copy the header and the regions: all but the strings to the start, the strings to the end. */
    method CopyTo(raw: seq<byte>, ghost newp: int) returns (copy: seq<byte>)
      requires Valid() && HDR_SIZE + rsvmap.size + structs.size + strings.size <= |raw|
      ensures copy == Reordered(TheLayout(), newp, raw).blob && |copy| == |raw|
    {
      hide Bump, Put, Content, Shift;
      var q := HDR_SIZE;
      copy := Put(raw, 0, blob[..HEADER_BYTES]);
      copy := Put(copy, q, blob[rsvmap.start - bph..rsvmap.End() - bph]);
      q := q + rsvmap.size;
      copy := Put(copy, q, blob[structs.start - bph..structs.End() - bph]);
      q := |raw| - strings.size;
      copy := Put(copy, q, blob[strings.start - bph..strings.End() - bph]);
    }

    /** Adjust all addresses to a copy of the tree at `newp`. */
    method PointTo(newp: nat, copy: seq<byte>, ghost raw: seq<byte>)
      requires Valid() && HDR_SIZE + rsvmap.size + structs.size + strings.size <= |raw|
      requires copy == Reordered(TheLayout(), newp, raw).blob && |copy| == |raw|
      modifies this`bph, this`blob, this`isordered, this`rsvmap, this`structs, this`strings, this`strAnchor, this`p, this`nodeTbl
      ensures |nodeTbl| == old(|nodeTbl|) && isordered && TheLayout() == Reordered(old(TheLayout()), newp, raw)
    {
      hide Bump, Put, Wf;
      var q := newp + HDR_SIZE;
      rsvmap := Region(q, rsvmap.size);
      q := q + rsvmap.size;
      NodeUpdateAfter(structs.start, q - structs.start);
      p := p + (q - structs.start);
      structs := Region(q, structs.size);
      q := newp + |copy| - strings.size;
      var stroff := strAnchor - strings.start;
      strings := Region(q, strings.size);
      strAnchor := q + stroff;
      bph, blob, isordered := newp, copy, true;
    }

    /** The strings are at the end of the buffer, which has the room that reordering leaves. */
    ghost predicate OrderedWith(n: nat)
      reads this
    {
      && strings.End() == bph + |blob|
      && (rsvmap.size + structs.size + strings.size >= 0 ==>
            var used: nat := HDR_SIZE + rsvmap.size + structs.size + strings.size;
            strings.start - structs.End() == Align8(used + EXPAND_INCR + n) - used)
    }

    /** A new buffer with the three regions in order, and room in it. */
    method Reorder(n: int) returns (ok: bool)
      requires Valid()
      modifies this
      ensures Valid() && TheView() == old(TheView())
      ensures if ok then isordered && structs.End() <= strings.start - n
              else TheLayout() == old(TheLayout()) && isordered == old(isordered)
      ensures ok && n >= 0 ==> OrderedWith(n)
      ensures ok ==> rsvmap.start == bph + 40 && rsvmap.End() == structs.start
      ensures rsvmap.size == old(rsvmap.size) && structs.size == old(structs.size) && strings.size == old(strings.size)
      ensures nodesUsed == old(nodesUsed) && |nodeTbl| == old(|nodeTbl|)
      ensures calls == old(calls) + 1 && (ok <==> !Refused(old(calls), calls))
    {
      hide Bump, Put, Content, ViewOf, Shift, Reordered, Align8, Refused;
      RefusedOnce(calls);
      ghost var l := TheLayout();
      var size := Align8(HDR_SIZE + EXPAND_INCR + rsvmap.size + structs.size + strings.size + if n > 0 then n else 0);
      var newp, raw := Allocate(size);
      if newp == 0 {
        return false;
      }
      ReorderedSame(l, newp, raw);
      ReorderedRoom(l, newp, raw);
      var copy := CopyTo(raw, newp);
      PointTo(newp, copy, raw);
      ok := true;
    }

    /** The strings now end with the buffer. */
    method StringsUp()
      requires Valid() && isordered
      modifies this`blob, this`strings, this`strAnchor
      ensures Valid() && isordered && TheView() == old(TheView())
      ensures strings.End() == bph + |blob| && strings.start >= old(strings.start) && |blob| == old(|blob|)
      ensures strings.size == old(strings.size)
    {
      hide Bump, Move, Content, ViewOf, Shift;
      StringsToEndSame(TheLayout());
      var str := bph + |blob| - strings.size;
      strAnchor := strAnchor + (str - strings.start);
      blob := Move(blob, str - bph, strings.start - bph, strings.size);
      strings := Region(str, strings.size);
    }

    /** Reallocate the buffer with room for `size` bytes.  The current position is not adjusted. */
    method Grow(size: nat) returns (ok: bool, shift: int)
      requires Valid() && isordered && size >= |blob| && size % 8 == 0
      modifies this
      ensures Valid() && isordered && nodesUsed == old(nodesUsed) && |nodeTbl| == old(|nodeTbl|)
      ensures TheView() == old(TheView()).(p := old(TheView()).p - shift)
      ensures if ok then |blob| == size else TheLayout() == old(TheLayout()) && shift == 0
      ensures bph == old(bph) + shift && (old(StaysPut()) ==> shift == 0)
      ensures structs == Region(old(structs.start) + shift, old(structs.size))
      ensures strings == Region(old(strings.start) + shift, old(strings.size))
      ensures rsvmap == Region(old(rsvmap.start) + shift, old(rsvmap.size))
      ensures calls == old(calls) + 1 && (ok <==> !Refused(old(calls), calls))
    {
      hide Bump, Content, ViewOf, Shift, Wf, InOrder, Reallocated;
      ghost var l := TheLayout();
      var newp, more := Allocate(size - |blob|);
      shift := 0;
      if newp == 0 {
        NoShift(TheView());
        return false, shift;
      }
      ReallocatedSame(l, newp, more);
      Multiples8(newp, size);
      shift := newp - bph;
      ShiftTo(newp, more);
      ok := true;
    }

    /** The buffer is now at `newp`, with more bytes at its end. */
    method ShiftTo(newp: nat, more: seq<byte>)
      requires Valid()
      modifies this`bph, this`blob, this`rsvmap, this`structs, this`strings, this`strAnchor, this`nodeTbl
      ensures |nodeTbl| == old(|nodeTbl|) && |blob| == old(|blob|) + |more| && bph == newp
      ensures TheLayout() == Reallocated(old(TheLayout()), newp, more)
      ensures structs == Region(old(structs.start) + (newp - old(bph)), old(structs.size))
      ensures strings == Region(old(strings.start) + (newp - old(bph)), old(strings.size))
      ensures rsvmap == Region(old(rsvmap.start) + (newp - old(bph)), old(rsvmap.size))
    {
      hide Bump, Wf, InOrder;
      var shift := newp - bph;
      blob := blob + more;
      if shift != 0 {
        bph := newp;
        NodeUpdateAfter(structs.start, shift);
        rsvmap := Region(rsvmap.start + shift, rsvmap.size);
        structs := Region(structs.start + shift, structs.size);
        strings := Region(strings.start + shift, strings.size);
        strAnchor := strAnchor + shift;
      } else {
        BumpNone(nodeTbl[1..nodesUsed], structs.start);
      }
    }
  
    lemma OpenAt(q: int, rgn: RegionId, n: int)
      requires CanOpen(q, rgn, n)
      ensures CanOpenAt(TheView(), rgn, Position(q, rgn), n)
    {
      hide Bump;
    }

    /** Whether room can be asked for does not depend on where things are. */
    lemma StillOpen(q: int, n: int, at: nat, v: View)
      requires Valid() && CanOpenAt(v, Structure, at, n) && q == structs.start + at
      requires TheView().structs == v.structs && TheView().nodes == v.nodes
      ensures CanOpen(q, Structure, n)
    {
      hide Bump;
      forall i | 1 <= i < nodesUsed ensures !(q <= nodeTbl[i] < q - n) {
        assert TheView().nodes[i - 1] == nodeTbl[1..nodesUsed][i - 1] - structs.start;
      }
    }

    /** Once the regions are in order, there is no room between the reserve map and the structure. */
    ghost predicate Tight()
      reads this
    {
      isordered ==> rsvmap.End() == structs.start
    }

    /** Whenever the allocator finds memory, it is where the buffer is. */
    ghost predicate StaysPut()
      reads this
    {
      forall k :: realloc(k) == 0 || realloc(k) == bph
    }

    /** There is room without moving the strings up. */
    predicate InPlace(n: int)
      reads this
    {
      !isordered || strings.End() + n <= bph + |blob| || structs.End() <= strings.start - n
    }

    /** There is not enough free space: reallocate, and put all of it before the strings. */
    method GrowAndShuffle(q: int, rgn: RegionId, n: int) returns (ok: bool, q': int, ghost shift: int)
      requires CanOpen(q, rgn, n) && isordered && n > 0 && strings.End() == bph + |blob|
      requires Of(rgn).End() + n > NextStart(rgn)
      modifies this
      ensures Valid() && isordered && nodesUsed == old(nodesUsed) && |nodeTbl| == old(|nodeTbl|)
      ensures ok ==> Opened(old(TheView()), TheView(), rgn, old(Position(q, rgn)), n)
      ensures ok && rgn == Structure ==> q' == structs.start + (q - old(structs.start))
      ensures ok && rgn == Strings ==> TheView().p == old(TheView().p) - shift
                                       && q' == q + shift - n && structs.End() == old(structs.End()) + shift
                                       && bph == old(bph) + shift
      ensures ok && rgn == Strings && old(StaysPut()) ==> shift == 0
      ensures ok && rgn == Strings ==> strings.start - q' <= old(strings.start) - q + n + 1032
      ensures !ok ==> TheView() == old(TheView()) && shift == 0
      ensures calls == old(calls) + 1 && (ok <==> !Refused(old(calls), calls))
      ensures old(Tight()) ==> Tight()
    {
      hide Opened, ViewOf, Wf;
      ghost var at, v := Position(q, rgn), TheView();
      OpenAt(q, rgn, n);
      // the room between the region and the next
      var tot := if rgn == Structure then strings.start - structs.End() else 0;
      WfFacts(TheLayout());
      var size := Align8(|blob| + (n - tot) + EXPAND_INCR);
      var d;
      ok, d := Grow(size);
      q', shift := q + d, d;
      if !ok {
        return;
      }
      // all room is now between structure and strings
      StringsUp();
      if rgn == Structure { StillOpen(q', n, at, v); }
      ghost var u := TheView();
      ok, q' := Shuffle(q', rgn, n);
      if ok { OpenedFrom(v, u, TheView(), rgn, at, n); }
    }

    /** Make room for `n` bytes at `q`, or remove `-n` bytes there; `q'` is to be the new address of
      * `q`.  Fails exactly if the allocator is asked and returns nothing, and then leaves everything as
      * it was.
      *
      * For strings `q'` is right exactly if they need not be moved up.  If they are moved up, it is
      * left behind, below the end of the structure; and if the buffer moves, the current position
      * is left behind by `shift`. */
    method MakeSpace(q: int, rgn: RegionId, n: int) returns (ok: bool, q': int, ghost shift: int)
      requires CanOpen(q, rgn, n) && (rgn == Strings ==> q == strings.start)
      modifies this
      ensures Valid() && nodesUsed == old(nodesUsed) && |nodeTbl| == old(|nodeTbl|)
      ensures ok ==> isordered && Opened(old(TheView()), TheView(), rgn, old(Position(q, rgn)), n)
      ensures ok && rgn == Structure ==> q' == structs.start + (q - old(structs.start))
      ensures ok && rgn == Strings ==> TheView().p == old(TheView().p) - shift
      ensures ok && rgn == Strings && old(InPlace(n)) ==> q' == strings.start && shift == 0
      ensures ok && rgn == Strings && !old(InPlace(n)) ==>
                && q' == structs.End() - (n - old(strings.start - structs.End())) < structs.End()
                && n <= strings.size && strings.start - q' <= 2 * n + 2048
                && structs.End() - bph == old(structs.End() - bph)
      ensures ok && rgn == Strings && old(StaysPut()) ==> shift == 0
      ensures ok && rgn == Strings && n > 0 && !old(isordered) ==> ReorderedFor(n, old(rsvmap.size), old(structs.size), old(strings.size))
      ensures ok && rgn == Strings && old(Free(n)) ==>
                && bph == old(bph) && |blob| == old(|blob|) && structs == old(structs)
                && strings == Region(old(strings.start) - n, old(strings.size) + n)
      ensures !ok ==> TheView() == old(TheView()) && shift == 0
      ensures old(calls) <= calls && (ok <==> !Refused(old(calls), calls))
      ensures old(Tight()) ==> Tight()
    {
      hide Opened, ViewOf, Wf, Align8, Refused;
      ghost var at, v := Position(q, rgn), TheView();
      OpenAt(q, rgn, n);
      RefusedNone(calls);
      q', shift := q, 0;
      ghost var start := calls;
      if !isordered {
        ok, q' := ReorderFor(q, rgn, n);
        if !ok {
          return;
        }
      }
      if rgn == Structure { StillOpen(q', n, at, v); }
      ghost var mid := calls;
      ok, q', shift := MakeSpaceInOrder(q', rgn, n);
      RefusedJoin(start, mid, calls);
    }

    /** The strings end with the buffer, and there is room for `n` bytes before them. */
    predicate Free(n: int)
      reads this
    {
      isordered && strings.End() == bph + |blob| && structs.End() <= strings.start - n && n > 0
    }

    /** The same for regions in order. */
    method MakeSpaceInOrder(q: int, rgn: RegionId, n: int) returns (ok: bool, q': int, ghost shift: int)
      requires CanOpen(q, rgn, n) && (rgn == Strings ==> q == strings.start) && isordered
      modifies this
      ensures Valid() && isordered && nodesUsed == old(nodesUsed) && |nodeTbl| == old(|nodeTbl|)
      ensures ok ==> Opened(old(TheView()), TheView(), rgn, old(Position(q, rgn)), n)
      ensures ok && rgn == Structure ==> q' == structs.start + (q - old(structs.start))
      ensures ok && rgn == Strings ==> TheView().p == old(TheView().p) - shift
      ensures ok && rgn == Strings && old(InPlace(n)) ==> q' == strings.start && shift == 0
      ensures ok && rgn == Strings && !old(InPlace(n)) ==>
                && q' == structs.End() - (n - old(strings.start - structs.End())) < structs.End()
                && n <= strings.size && strings.start - q' <= 2 * n + 2048
                && structs.End() - bph == old(structs.End() - bph)
      ensures ok && rgn == Strings && old(StaysPut()) ==> shift == 0
      ensures ok && rgn == Strings && old(Free(n)) ==>
                && bph == old(bph) && |blob| == old(|blob|) && structs == old(structs)
                && strings == Region(old(strings.start) - n, old(strings.size) + n)
      ensures !ok ==> TheView() == old(TheView()) && shift == 0
      ensures old(calls) <= calls && (ok <==> !Refused(old(calls), calls))
      ensures old(Tight()) ==> Tight()
    {
      hide Opened, ViewOf, Wf, Align8, Refused;
      ghost var at, v := Position(q, rgn), TheView();
      OpenAt(q, rgn, n);
      RefusedNone(calls);
      shift := 0;
      ok, q' := Shuffle(q, rgn, n);
      WfFacts(TheLayout());
      if !ok {
        ok, q', shift := MakeRoom(q', rgn, n);
      }
    }

    /** There is no room on either side of the region. */
    method MakeRoom(q: int, rgn: RegionId, n: int) returns (ok: bool, q': int, ghost shift: int)
      requires CanOpen(q, rgn, n) && (rgn == Strings ==> q == strings.start) && isordered && n > 0
      requires Of(rgn).End() + n > NextStart(rgn) && PrevEnd(rgn) > Of(rgn).start - n
      modifies this
      ensures Valid() && isordered && nodesUsed == old(nodesUsed) && |nodeTbl| == old(|nodeTbl|)
      ensures ok ==> Opened(old(TheView()), TheView(), rgn, old(Position(q, rgn)), n)
      ensures ok && rgn == Structure ==> q' == structs.start + (q - old(structs.start))
      ensures ok && rgn == Strings ==>
                && TheView().p == old(TheView().p) - shift
                && q' == structs.End() - (n - old(strings.start - structs.End())) < structs.End()
                && n <= strings.size && strings.start - q' <= 2 * n + 2048
                && structs.End() - bph == old(structs.End() - bph)
                && (old(StaysPut()) ==> shift == 0)
      ensures !ok ==> TheView() == old(TheView()) && shift == 0
      ensures old(calls) <= calls && (ok <==> !Refused(old(calls), calls))
      ensures old(Tight()) ==> Tight()
    {
      hide Opened, ViewOf, Wf, Align8, Refused;
      ghost var at, v := Position(q, rgn), TheView();
      OpenAt(q, rgn, n);
      RefusedNone(calls);
      q', shift := q, 0;
      WfFacts(TheLayout());
      // the strings can go up by the room above them
      if strings.End() < bph + |blob| {
        ok, q' := UpAndShuffle(q', rgn, n);
        if ok {
          return;
        }
      }
      ghost var l := TheLayout();
      WfFacts(l);
      ok, q', shift := GrowAndShuffle(q', rgn, n);
      if ok {
        WfFacts(TheLayout());
        if rgn == Strings { OpenedSize(l, TheLayout(), n); }
      }
    }

    /** Move the strings up and see whether there is enough space now. */
    method UpAndShuffle(q: int, rgn: RegionId, n: int) returns (ok: bool, q': int)
      requires CanOpen(q, rgn, n) && (rgn == Strings ==> q == strings.start) && isordered && n > 0
      requires Of(rgn).End() + n > NextStart(rgn) && PrevEnd(rgn) > Of(rgn).start - n
      modifies this`blob, this`structs, this`strings, this`strAnchor, this`nodeTbl
      ensures Valid() && |nodeTbl| == old(|nodeTbl|) && bph == old(bph)
      ensures ok ==> Opened(old(TheView()), TheView(), rgn, old(Position(q, rgn)), n)
      ensures ok && rgn == Structure ==> q' == structs.start + (q - old(structs.start))
      ensures ok && rgn == Strings ==> TheView().p == old(TheView().p) && structs == old(structs)
                                       && q' == q - n && n <= strings.size && strings.start - q' <= 2 * n
      ensures !ok ==> TheView() == old(TheView()) && q' == q && CanOpen(q, rgn, n) && structs == old(structs)
                      && strings.End() == bph + |blob| && Of(rgn).End() + n > NextStart(rgn)
                      && old(strings.start) <= strings.start < old(strings.start) + n
      ensures old(Tight()) ==> Tight()
    {
      hide Opened, ViewOf, Wf;
      ghost var at, v := Position(q, rgn), TheView();
      WfFacts(TheLayout());
      OpenAt(q, rgn, n);
      StringsUp();
      if rgn == Structure { StillOpen(q, n, at, v); }
      ghost var l := TheLayout();
      ok, q' := Shuffle(q, rgn, n);
      WfFacts(TheLayout());
      if ok {
        if rgn == Strings { OpenedSize(l, TheLayout(), n); }
      } else if rgn == Structure {
        StillOpen(q, n, at, v);
      }
    }

    lemma RefusedNone(a: nat)
      ensures !Refused(a, a)
    {
    }

    /** What making room for `n` bytes before the strings leaves when things had to be put in order:
      * the sizes before are given. */
    ghost predicate ReorderedFor(n: nat, rsv: int, st: int, str: int)
      reads this
    {
      && strings.End() == bph + |blob|
      && (rsv + st + str >= 0 ==>
            var used: nat := HDR_SIZE + rsv + st + str; strings.start - structs.End() == Align8(used + EXPAND_INCR + n) - used - n)
    }

    /** Put things in order, with room for `n` bytes. */
    method ReorderFor(q: int, rgn: RegionId, n: int) returns (ok: bool, q': int)
      requires Valid() && !isordered
      modifies this
      ensures Valid() && TheView() == old(TheView())
      ensures nodesUsed == old(nodesUsed) && |nodeTbl| == old(|nodeTbl|)
      ensures ok ==> isordered && q' == Of(rgn).start + (q - old(Of(rgn).start)) && structs.End() <= strings.start - n
      ensures ok && n >= 0 ==> OrderedWith(n)
      ensures rsvmap.size == old(rsvmap.size) && structs.size == old(structs.size) && strings.size == old(strings.size)
      ensures calls == old(calls) + 1 && (ok <==> !Refused(old(calls), calls))
      ensures !ok ==> TheLayout() == old(TheLayout()) && !isordered && q' == q
      ensures ok ==> Tight()
    {
      hide ViewOf, Wf;
      var rgnOff := q - if rgn == Structure then structs.start else strings.start;
      q' := q;
      ok := Reorder(n);
      if ok {
        q' := rgnOff + if rgn == Structure then structs.start else strings.start;
      }
    }
  }

  lemma ReorderedRoom(l: Layout, newp: int, raw: seq<byte>)
    requires Wf(l) && HDR_SIZE + l.rsvmap.size + l.structs.size + l.strings.size <= |raw|
    ensures var m := Reordered(l, newp, raw);
            && m.bph == newp && |m.blob| == |raw| && m.strings.End() == m.bph + |m.blob|
            && m.rsvmap.size == l.rsvmap.size && m.structs.size == l.structs.size && m.strings.size == l.strings.size
            && m.rsvmap.start == m.bph + HDR_SIZE && m.rsvmap.End() == m.structs.start
            && m.strings.start - m.structs.End() == |raw| - HDR_SIZE - l.rsvmap.size - l.structs.size - l.strings.size
  {
  }

  lemma OpenedSize(l: Layout, m: Layout, n: nat)
    requires Wf(l) && Wf(m) && Opened(ViewOf(l), ViewOf(m), Strings, 0, n)
    ensures m.strings.size == l.strings.size + n
  {
  }

  lemma WfFacts(l: Layout)
    requires Wf(l) && InOrder(l)
    ensures l.structs.End() <= l.strings.start && l.strings.End() <= l.bph + |l.blob| && 0 <= l.strings.size
  {
  }

  lemma OpenedFrom(v: View, u: View, w: View, rgn: RegionId, at: nat, n: int)
    requires u == v.(p := u.p) && Opened(u, w, rgn, at, n)
    ensures Opened(v, w, rgn, at, n)
  {
  }

  lemma Multiples8(x: nat, y: nat)
    requires x % 8 == 0 && y % 8 == 0
    ensures (x + y) % 8 == 0
  {
  }

  lemma NoShift(v: View)
    ensures v.(p := v.p - 0) == v
  {
  }

  lemma BumpNone(nodes: seq<int>, at: int)
    ensures Bump(nodes, at, 0) == nodes
  {
  }

  lemma MoveNothing(blob: seq<byte>, at: nat, n: int)
    ensures at <= |blob| && 0 <= at + n <= |blob| ==> Move(blob, at + n, at, 0) == blob
    ensures at <= |blob| && 0 <= at - n <= |blob| ==> Move(blob, at, at - n, 0) == blob
  {
  }

  lemma NoNodes(nodes: seq<int>, q: int, n: int)
    requires forall i :: 0 <= i < |nodes| ==> nodes[i] < q
    ensures Bump(nodes, q, n) == nodes
  {
  }

  lemma NoNodesBefore(nodes: seq<int>, q: int, n: int)
    requires forall i :: 0 <= i < |nodes| ==> nodes[i] >= q
    ensures BumpBefore(nodes, q, 0 - n) == nodes
  {
  }
}
