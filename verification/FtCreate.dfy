/** Adding nodes to a flattened device tree, and handing out nodes. */
module FtCreate {
  import opened Bits
  import opened FtBlob
  import opened FtLayout
  import opened FtSpace
  import opened FtTokens
  import opened FtNames
  import opened FtEdit
  import T = FtTree

  // ----- Handing out nodes

  /** The number under which a node is handed out: the one it has, or a new one; 0 if there are no
    * more. */
  method GetPhandle(c: Cxt, node: int) returns (ph: nat)
    requires c.Valid() && c.structs.start <= node < c.structs.End()
    modifies c`nodeTbl, c`nodesUsed
    ensures c.Valid() && |c.nodeTbl| == old(|c.nodeTbl|)
    ensures ph > 0 ==> ph < c.nodesUsed && c.nodeTbl[ph] == node
    ensures ph == 0 <==> old(c.nodesUsed) == |c.nodeTbl| && forall i :: 1 <= i < old(c.nodesUsed) ==> old(c.nodeTbl)[i] != node
    ensures old(c.nodesUsed) <= c.nodesUsed
    ensures if c.nodesUsed > old(c.nodesUsed)
            then c.TheView() == old(c.TheView()).(nodes := old(c.TheView()).nodes + [node - c.structs.start])
            else c.TheView() == old(c.TheView())
  {
    hide ViewOf, Wf, InOrder;
    var i := 1;
    while i < c.nodesUsed
      invariant 1 <= i <= c.nodesUsed && forall k :: 1 <= k < i ==> c.nodeTbl[k] != node
    {
      if c.nodeTbl[i] == node {
        return i;
      }
      i := i + 1;
    }
    ghost var nodes := c.nodeTbl[1..c.nodesUsed];
    AddNode(c.TheLayout(), node);
    if c.nodesUsed < |c.nodeTbl| {
      c.nodeTbl := c.nodeTbl[c.nodesUsed := node];
      ph := c.nodesUsed;
      c.nodesUsed := c.nodesUsed + 1;
      assert c.nodeTbl[1..c.nodesUsed] == nodes + [node];
    } else {
      ph := 0;
    }
  }

  lemma AddNode(l: Layout, node: int)
    requires Wf(l) && l.structs.start <= node < l.structs.End()
    ensures var m := l.(nodes := l.nodes + [node]);
            && Wf(m) && (InOrder(l) ==> InOrder(m))
            && ViewOf(m) == ViewOf(l).(nodes := ViewOf(l).nodes + [node - l.structs.start])
  {
    assert Shift(l.nodes + [node], 0 - l.structs.start) == Shift(l.nodes, 0 - l.structs.start) + [node - l.structs.start];
  }

  // ----- Adding a node

  function NodeTokens(name: seq<byte>): seq<Token> {
    [Begin(name), EndNode]
  }

  function NodeCode(name: seq<byte>): (b: seq<byte>)
    requires IsString(name)
  {
    Encode(Begin(name)) + Encode(EndNode)
  }

  lemma NodeCodeReads(name: seq<byte>)
    requires IsString(name)
    ensures forall x :: Reads(NodeCode(name) + x, NodeTokens(name), x)
    ensures |NodeCode(name)| == Size(NodeTokens(name)) == 8 + Align4(|name| + 1) && Begins(NodeTokens(name)) == 1
  {
    hide Encode, Next;
    var a, b := Encode(Begin(name)), Encode(EndNode);
    EncodeReads(Begin(name));
    EncodeReads(EndNode);
    assert NodeTokens(name) == [Begin(name)] + [EndNode];
    forall x ensures Reads(NodeCode(name) + x, NodeTokens(name), x) {
      assert NodeCode(name) + x == a + (b + x);
      ReadsConcat(a + (b + x), [Begin(name)], b + x, [EndNode], x);
    }
    NodeSizes(name);
  }

  lemma NodeSizes(name: seq<byte>)
    ensures Size(NodeTokens(name)) == 8 + Align4(|name| + 1) && Begins(NodeTokens(name)) == 1
  {
    hide Size, Begins;
    assert NodeTokens(name) == [Begin(name)] + [EndNode];
    OneToken(Begin(name));
    OneToken(EndNode);
    SizeConcat([Begin(name)], [EndNode]);
    BeginsConcat([Begin(name)], [EndNode]);
  }

  lemma OneToken(t: Token)
    ensures Size([t]) == Length(t) && Begins([t]) == if t.Begin? then 1 else 0
  {
    assert [t][1..] == [];
    assert [t][..0] == [];
  }

  /** The start of a node is written where the current position is. */
  method BeginNode(c: Cxt, name: seq<byte>, ghost a: seq<Token>, ghost b: seq<Token>) returns (ok: bool, node: int, ghost v2: View)
    requires c.Valid() && Represents(c.TheView(), a + b) && c.TheView().p == Size(a) && IsString(name)
    modifies c
    ensures c.Valid() && c.nodesUsed == old(c.nodesUsed) && |c.nodeTbl| == old(|c.nodeTbl|)
    ensures old(c.calls) <= c.calls && (ok <==> !c.Refused(old(c.calls), c.calls))
    ensures ok ==> Opened(old(c.TheView()), v2, Structure, Size(a), 8 + Align4(|name| + 1))
                   && Size(a) + 8 + Align4(|name| + 1) <= |v2.structs| && v2.p == Size(a)
                   && Wrote(v2, c.TheView(), Encode(Begin(name))) && node == c.structs.start + Size(a)
    ensures !ok ==> c.TheView() == old(c.TheView())
  {
    hide ViewOf, Wf, Represents, Opened, Size, Put, Bytes, StrLen, Wrote;
    ghost var v := c.TheView();
    v2 := v;
    node := 0;
    var len := 8 + Align4(|name| + 1);
    RepresentsSize(v, a, b);
    CanInsert(c, Size(a), len);
    var q;
    ghost var shift;
    ok, q, shift := c.MakeSpace(c.p, Structure, len);
    if !ok {
      return;
    }
    RoomMade(c, v, Size(a), len, q);
    OpenedFrom2(v, c.TheView(), Size(a), len);
    SetPosition(c, q);
    v2 := c.TheView();
    node := q;
    PutBegin(c, name);
  }

  lemma OpenedFrom2(v: View, w: View, at: nat, n: nat)
    requires Opened(v, w, Structure, at, n)
    ensures Opened(v, w.(p := at), Structure, at, n)
  {
  }

  method PutBegin(c: Cxt, name: seq<byte>)
    requires c.Valid() && IsString(name)
    requires 0 <= c.TheView().p && c.TheView().p + Length(Begin(name)) <= |c.TheView().structs|
    modifies c`blob, c`p
    ensures c.Valid() && Wrote(old(c.TheView()), c.TheView(), Encode(Begin(name)))
  {
    hide Put, ViewOf, Bytes;
    ghost var v := c.TheView();
    PutWord(c, OF_DT_BEGIN_NODE);
    ghost var w := c.TheView();
    PutBin(c, name + [0]);
    var n := |name| + 1;
    WroteMore(v, w, c.TheView(), Bytes(OF_DT_BEGIN_NODE), name + [0] + Padding(Align4(n) - n));
    assert [0] + Padding(Align4(n) - n) == Padding(Align4(n) - |name|);
    assert Bytes(OF_DT_BEGIN_NODE) + (name + [0] + Padding(Align4(n) - n)) == Bytes(OF_DT_BEGIN_NODE) + name + ([0] + Padding(Align4(n) - n));
  }

  /** A new empty node between the tokens `a` and `b`, which start with the end of a node.  If there
    * is no room, the end written for the new node goes over that end, to no effect. */
  method InsertNode(c: Cxt, name: seq<byte>, ghost a: seq<Token>, ghost b: seq<Token>) returns (ok: bool, node: int)
    requires c.Valid() && Represents(c.TheView(), a + b) && c.TheView().p == Size(a) && IsString(name)
    requires |b| > 0 && b[0].EndNode?
    modifies c
    ensures c.Valid() && c.nodesUsed == old(c.nodesUsed) && |c.nodeTbl| == old(|c.nodeTbl|)
    ensures old(c.calls) <= c.calls && (ok <==> !c.Refused(old(c.calls), c.calls))
    ensures ok ==> Edited(old(c.TheView()), c.TheView(), a, [], NodeTokens(name), b, [T.Open(name), T.Close])
                   && node == c.structs.start + Size(a) && node < c.structs.End()
    ensures !ok ==> SameTree(old(c.TheView()), c.TheView(), a + b)
  {
    hide ViewOf, Wf, Represents, Opened, Size, Put, Bytes, Encode, Edited, Items, Reads, Begins, Named;
    ghost var v := c.TheView();
    ghost var v2;
    ok, node, v2 := BeginNode(c, name, a, b);
    ghost var v3 := c.TheView();
    NodeCodeReads(name);
    if ok { LastEnd(v2, v3, name); } else { EndBytes(v, a, b); }
    PutWord(c, OF_DT_END_NODE);
    ghost var w := c.TheView();
    EndCode();
    if ok {
      WroteMore(v2, v3, w, Encode(Begin(name)), Encode(EndNode));
      NodeItems(v, name);
      InsertIs(v, v, v2, w, a, b, NodeTokens(name), NodeCode(name), [T.Open(name), T.Close]);
      StructIs(c.TheLayout());
    } else {
      PutSame(v.structs, Size(a), Bytes(OF_DT_END_NODE));
      SameRepresents(v, w, a + b);
    }
  }

  lemma LastEnd(v: View, w: View, name: seq<byte>)
    requires IsString(name) && Wrote(v, w, Encode(Begin(name))) && v.p + 8 + Align4(|name| + 1) <= |v.structs|
    ensures 0 <= w.p && w.p + 4 <= |w.structs| && |w.structs| == |v.structs| && v.p < |v.structs|
  {
  }

  lemma EndCode()
    ensures Encode(EndNode) == Bytes(OF_DT_END_NODE)
  {
  }

  /** The end of a node in the structure. */
  lemma EndBytes(v: View, a: seq<Token>, b: seq<Token>)
    requires Represents(v, a + b) && |b| > 0 && b[0].EndNode?
    ensures Size(a) + 4 <= |v.structs| && v.structs[Size(a)..Size(a) + 4] == Bytes(OF_DT_END_NODE)
  {
    hide Named, Bytes, Word, Reads, Size;
    assert (a + b)[|a|] == EndNode && (a + b)[..|a|] == a;
    StructReads(v, a + b);
    AtomAt(v.structs, a + b, |a|);
    var u := v.structs[Size(a)..];
    SliceOf(v.structs, Size(a), 0, 4);
    assert u[0..4] == u[..4];
    WordBytes(u[..4]);
  }

  lemma PutSame(s: seq<byte>, at: nat, data: seq<byte>)
    requires at + |data| <= |s| && s[at..at + |data|] == data
    ensures Put(s, at, data) == s
  {
  }

  lemma SameRepresents(v: View, w: View, ts: seq<Token>)
    requires Represents(v, ts) && w == v.(p := w.p)
    ensures SameTree(v, w, ts)
  {
  }

  lemma NodeItems(v: View, name: seq<byte>)
    ensures Named(v.strings, v.anchor, NodeTokens(name)) && TheItems(v, NodeTokens(name)) == [T.Open(name), T.Close]
  {
  }

  // ----- Appending a child

  lemma {:induction false} AddItemsAtNode(xs: seq<T.Item>, j: nat, m: nat, c: seq<T.Item>)
    requires j < |xs| && xs[j].Open? && Opens(xs[..j]) == m
    ensures T.AddItemsAt(xs, m, c) == xs[..j + 1] + T.AddItems(xs[j + 1..], 0, c)
  {
    if j > 0 {
      OpensFirst(xs[..j]);
      assert xs[..j][1..] == xs[1..][..j - 1];
      AddItemsAtNode(xs[1..], j - 1, if xs[0].Open? then m - 1 else m, c);
      assert xs[..j + 1] == [xs[0]] + xs[1..][..j];
      assert xs[1..][j..] == xs[j + 1..];
    }
  }

  /** Up to item `k` the end of the node `depth` levels up has not been found. */
  ghost predicate Looking(xs: seq<T.Item>, m: nat, c: seq<T.Item>, k: nat, depth: nat)
    requires k <= |xs|
  {
    && T.AddItemsAt(xs, m, c) == xs[..k] + T.AddItems(xs[k..], depth, c)
    && T.NewNumber(xs, m) == Opens(xs[..k]) + T.EndNumber(xs[k..], depth)
  }

  lemma LookOn(xs: seq<T.Item>, m: nat, c: seq<T.Item>, k: nat, depth: nat)
    requires k < |xs| && Looking(xs, m, c, k, depth)
    ensures if xs[k].Close? && depth == 0 then T.AddItemsAt(xs, m, c) == xs[..k] + c + xs[k..] && T.NewNumber(xs, m) == Opens(xs[..k])
            else Looking(xs, m, c, k + 1, if xs[k].Open? then depth + 1 else if xs[k].Close? then depth - 1 else depth)
  {
    var ys := xs[k..];
    assert ys[0] == xs[k] && ys[1..] == xs[k + 1..];
    assert xs[..k + 1][..k] == xs[..k];
    if xs[k].Close? && depth == 0 {
      assert xs[..k] + (c + ys) == xs[..k] + c + ys;
    } else {
      var d := if xs[k].Open? then depth + 1 else if xs[k].Close? then depth - 1 else depth;
      assert xs[..k] + ([xs[k]] + T.AddItems(ys[1..], d, c)) == xs[..k + 1] + T.AddItems(xs[k + 1..], d, c);
    }
  }

  lemma StartLooking(v: View, ts: seq<Token>, j: nat, m: nat, c: seq<T.Item>)
    requires j < |ts| && ts[j].Begin? && Begins(ts[..j]) == m
    ensures Looking(TheItems(v, ts), m, c, j + 1, 0)
  {
    hide Items;
    var xs := TheItems(v, ts);
    SameKinds(v, ts, j);
    ItemsSlice(v, ts, 0, j);
    OpensBegins(v, ts[..j]);
    AddItemsAtNode(xs, j, m, c);
    NewNumberAtNode(xs, j, m);
  }

  lemma {:induction false} NewNumberAtNode(xs: seq<T.Item>, j: nat, m: nat)
    requires j < |xs| && xs[j].Open? && Opens(xs[..j]) == m
    ensures T.NewNumber(xs, m) == Opens(xs[..j + 1]) + T.EndNumber(xs[j + 1..], 0)
  {
    OpensFirst(xs[..j + 1]);
    assert xs[..j + 1][1..] == xs[1..][..j];
    if j > 0 {
      OpensFirst(xs[..j]);
      assert xs[..j][1..] == xs[1..][..j - 1];
      NewNumberAtNode(xs[1..], j - 1, if xs[0].Open? then m - 1 else m);
      assert xs[1..][j..] == xs[j + 1..];
    } else {
      assert xs[1..][..0] == [];
    }
  }

  /** An empty node has been added as the last child of node number `m`; it starts at `at`. */
  ghost predicate NodeAdded(v: View, w: View, ts: seq<Token>, ts': seq<Token>, m: nat, name: seq<byte>, at: nat) {
    && w.header == v.header && w.rsvmap == v.rsvmap
    && Represents(w, ts') && TheItems(w, ts') == T.AddItemsAt(TheItems(v, ts), m, [T.Open(name), T.Close])
    && |v.nodes| <= |w.nodes| && NodesKept(v.nodes, w.nodes[..|v.nodes|], ts, ts', T.NewNumber(TheItems(v, ts), m), 1)
    && IsNode(ts', at, T.NewNumber(TheItems(v, ts), m))
    && (w.nodes == w.nodes[..|v.nodes|] || w.nodes == w.nodes[..|v.nodes|] + [at])
  }

  lemma AddedIs(v: View, w: View, u: View, ts: seq<Token>, k: nat, m: nat, name: seq<byte>)
    requires k < |ts| && Looking(TheItems(v, ts), m, [T.Open(name), T.Close], k, 0) && ts[k].EndNode?
    requires Edited(v, w, ts[..k], [], NodeTokens(name), ts[k..], [T.Open(name), T.Close])
    requires u == w.(nodes := u.nodes, p := u.p) && (u.nodes == w.nodes || u.nodes == w.nodes + [Size(ts[..k])])
    ensures NodeAdded(v, u, ts, ts[..k] + NodeTokens(name) + ts[k..], m, name, Size(ts[..k]))
  {
    hide Reads, Named, NodesKept, Size, Begins, Represents, Items, Looking, IsNode;
    var ts' := ts[..k] + NodeTokens(name) + ts[k..];
    KeptSize(v.nodes, w.nodes, ts[..k] + [] + ts[k..], ts', Begins(ts[..k]), Begins(NodeTokens(name)));
    assert u.nodes[..|v.nodes|] == w.nodes;
    FoundEnd(v, ts, k, m, [T.Open(name), T.Close]);
    assert ts[..k] + [] + ts[k..] == ts;
    NodeSizes(name);
    RepresentsAs(w, u, ts');
    NodeThere(ts, k, name);
  }

  lemma NotFound(v: View, ts: seq<Token>, m: nat, name: seq<byte>, depth: nat)
    requires Looking(TheItems(v, ts), m, [T.Open(name), T.Close], |ts|, depth)
    ensures !Closes(v, ts, m, name)
  {
    hide Items;
    assert TheItems(v, ts)[..|ts|] == TheItems(v, ts) && TheItems(v, ts)[|ts|..] == [];
  }

  lemma FoundCloses(v: View, ts: seq<Token>, k: nat, m: nat, name: seq<byte>)
    requires k < |ts| && Looking(TheItems(v, ts), m, [T.Open(name), T.Close], k, 0) && ts[k].EndNode?
    ensures Closes(v, ts, m, name)
  {
    hide Items, Looking;
    FoundEnd(v, ts, k, m, [T.Open(name), T.Close]);
    assert |TheItems(v, ts[..k]) + [T.Open(name), T.Close] + TheItems(v, ts[k..])| == |ts| + 2;
  }

  /** No node handed out before is where the new node starts. */
  lemma NewPlace(c: Cxt, v: View, w: View, ts: seq<Token>, k: nat, name: seq<byte>)
    requires k <= |ts| && Handles(v, ts) && Edited(v, w, ts[..k], [], NodeTokens(name), ts[k..], [T.Open(name), T.Close])
    requires c.Valid() && w == c.TheView()
    ensures forall i :: 1 <= i < c.nodesUsed ==> c.nodeTbl[i] != c.structs.start + Size(ts[..k])
  {
    hide Represents, Items, Size, Begins, IsNode, ViewOf;
    var ts' := ts[..k] + NodeTokens(name) + ts[k..];
    assert ts[..k] + [] + ts[k..] == ts;
    NodeSizes(name);
    NodeThere(ts, k, name);
    NodesAre(c);
    forall i | 1 <= i < c.nodesUsed ensures c.nodeTbl[i] != c.structs.start + Size(ts[..k]) {
      assert StartsNode(ts, v.nodes[i - 1]);
      var m: nat :| IsNode(ts, v.nodes[i - 1], m);
      var n := if m >= Begins(ts[..k]) then m + 1 else m;
      assert IsNode(ts', w.nodes[i - 1], n);
      if w.nodes[i - 1] == Size(ts[..k]) { NumberOnce(ts', Size(ts[..k]), n, Begins(ts[..k])); }
    }
  }

  lemma NumberOnce(ts: seq<Token>, off: int, m: nat, n: nat)
    requires IsNode(ts, off, m) && IsNode(ts, off, n)
    ensures m == n
  {
    hide Size, Begins, IsNode;
    var i := NodeElim(ts, off, m);
    var j := NodeElim(ts, off, n);
    SizeInjective(ts, i, j);
  }

  lemma FoundEnd(v: View, ts: seq<Token>, k: nat, m: nat, c: seq<T.Item>)
    requires k < |ts| && Looking(TheItems(v, ts), m, c, k, 0) && ts[k].EndNode?
    ensures T.AddItemsAt(TheItems(v, ts), m, c) == TheItems(v, ts[..k]) + c + TheItems(v, ts[k..])
    ensures T.NewNumber(TheItems(v, ts), m) == Begins(ts[..k])
  {
    hide Looking, Items;
    var xs := TheItems(v, ts);
    SameKinds(v, ts, k);
    LookOn(xs, m, c, k, 0);
    OpensBegins(v, ts[..k]);
    ItemsSlice(v, ts, 0, k);
    ItemsSlice(v, ts, k, |ts|);
  }

  lemma RepresentsAs(w: View, u: View, ts: seq<Token>)
    requires Represents(w, ts) && u == w.(nodes := u.nodes, p := u.p)
    ensures Represents(u, ts) && TheItems(u, ts) == TheItems(w, ts)
  {
    hide Reads, Named, Items;
  }

  lemma NodeThere(ts: seq<Token>, k: nat, name: seq<byte>)
    requires k <= |ts|
    ensures IsNode(ts[..k] + NodeTokens(name) + ts[k..], Size(ts[..k]), Begins(ts[..k]))
  {
    hide Size, Begins, IsNode;
    assert ts[..k] + NodeTokens(name) + ts[k..] == ts[..k] + [Begin(name)] + ([EndNode] + ts[k..]);
    NodeIntro(ts[..k], Begin(name), [EndNode] + ts[k..]);
  }

  /** Node number `m` has that name. */
  ghost predicate NodeNamed(ts: seq<Token>, m: nat, name: seq<byte>) {
    exists j :: 0 <= j < |ts| && ts[j].Begin? && Begins(ts[..j]) == m && ts[j].name == name
  }

  /** Node number `m` has an end before which a node can be added. */
  ghost predicate Closes(v: View, ts: seq<Token>, m: nat, name: seq<byte>) {
    T.AddItemsAt(TheItems(v, ts), m, [T.Open(name), T.Close]) != TheItems(v, ts)
  }

  /** Nothing comes before node number `m` that could be taken for another. */
  ghost predicate IsRoot(ts: seq<Token>, m: nat) {
    exists j :: 0 <= j < |ts| && ts[j].Begin? && Begins(ts[..j]) == m && forall i :: 0 <= i < j ==> ts[i].Nop?
  }

  lemma NamedOnce(ts: seq<Token>, j: nat, m: nat, name: seq<byte>)
    requires j < |ts| && ts[j].Begin? && Begins(ts[..j]) == m
    ensures NodeNamed(ts, m, name) <==> ts[j].name == name
  {
    hide Begins;
    forall i | 0 <= i < |ts| && ts[i].Begin? && Begins(ts[..i]) == m ensures i == j {
      if i < j { BeginsAt(ts, i, j); } else if j < i { BeginsAt(ts, j, i); }
    }
  }

  /** Append an empty node to the node handed out as `parent`, or to the root.  Done exactly if there is
    * such a node, it has an end and another name, and the allocator does not fail: that a child of
    * that name is there already is not noticed.  The new node is handed out unless there are no more
    * numbers. */
  method CreateNode(c: Cxt, parent: nat, name: seq<byte>, ghost ts: seq<Token>, ghost m: nat)
    returns (ph: nat, ghost created: bool, ghost ts': seq<Token>, ghost at: nat)
    requires c.Valid() && Represents(c.TheView(), ts) && IsString(name)
    requires parent == 0 ==> IsRoot(ts, m)
    requires 1 <= parent < c.nodesUsed ==> IsNode(ts, c.nodeTbl[parent] - c.structs.start, m)
    modifies c
    ensures c.Valid() && |c.nodeTbl| == old(|c.nodeTbl|) && old(c.nodesUsed) <= c.nodesUsed && old(c.calls) <= c.calls
    ensures created <==> parent < old(c.nodesUsed) && !NodeNamed(ts, m, name) && old(Closes(c.TheView(), ts, m, name))
                         && !c.Refused(old(c.calls), c.calls)
    ensures !created ==> ph == 0 && SameTree(old(c.TheView()), c.TheView(), ts)
    ensures created ==> NodeAdded(old(c.TheView()), c.TheView(), ts, ts', m, name, at)
    ensures created && old(Handles(c.TheView(), ts)) ==> (ph == 0 <==> old(c.nodesUsed == |c.nodeTbl|))
    ensures ph > 0 ==> created && ph < c.nodesUsed && c.nodeTbl[ph] == c.structs.start + at
  {
    hide ViewOf, Wf, Represents, Size, Items, Begins, Edited, NodeAdded, Looking, IsNode, InOrder, NodeNamed, Closes, Handles, Reads;
    ghost var v, news := c.TheView(), [T.Open(name), T.Close];
    ph, created, ts', at := 0, false, ts, 0;
    NoChange(v, ts);
    StructReads(v, ts);
    c.RefusedNone(c.calls);
    var p := c.structs.start;
    ghost var i, j := 0, 0;
    if parent != 0 {
      var found;
      found, p := NodeOf(c, parent);
      if !found {
        return;
      }
      j := NodeElim(ts, p - c.structs.start, m);
      i := j;
    } else {
      SizeFirst(ts);
      j :| 0 <= j < |ts| && ts[j].Begin? && Begins(ts[..j]) == m && forall i :: 0 <= i < j ==> ts[i].Nop?;
    }
    var next, t := SkipNops(c, p, ts, i, j);
    // a node of the parent's own name is taken for a duplicate
    NamedOnce(ts, j, m, name);
    if t.name == name {
      return;
    }
    StartLooking(v, ts, j, m, news);
    ph, created, ts', at := AppendTo(c, next, name, ts, j + 1, m);
  }

  /** Go on to the next token that stands for something. */
  method SkipNops(c: Cxt, start: int, ghost ts: seq<Token>, ghost from: nat, ghost j: nat) returns (next: int, t: Token)
    requires c.Valid() && Represents(c.TheView(), ts) && from <= j < |ts| && !ts[j].Nop?
    requires (forall k :: from <= k < j ==> ts[k].Nop?) && start == c.structs.start + Size(ts[..from])
    ensures t == ts[j] && next == c.structs.start + Size(ts[..j + 1])
  {
    hide ViewOf, Wf, Represents, Size, Reads, InOrder;
    StructReads(c.TheView(), ts);
    var more;
    ghost var i := from;
    more, next, t := FtNext(c, start, ts, i);
    while t.Nop?
      invariant i <= j && t == ts[i] && next == c.structs.start + Size(ts[..i + 1])
      decreases j - i
    {
      i := i + 1;
      more, next, t := FtNext(c, next, ts, i);
    }
  }

  lemma SizeFirst(ts: seq<Token>)
    ensures Size(ts[..0]) == 0
  {
  }

  /** Go on to the end of the node that has just started, and add the new node there. */
  method AppendTo(c: Cxt, start: int, name: seq<byte>, ghost ts: seq<Token>, ghost i: nat, ghost m: nat)
    returns (ph: nat, ghost created: bool, ghost ts': seq<Token>, ghost at: nat)
    requires c.Valid() && Represents(c.TheView(), ts) && IsString(name)
    requires i <= |ts| && start == c.structs.start + Size(ts[..i])
    requires Looking(TheItems(c.TheView(), ts), m, [T.Open(name), T.Close], i, 0)
    modifies c
    ensures c.Valid() && |c.nodeTbl| == old(|c.nodeTbl|) && old(c.nodesUsed) <= c.nodesUsed && old(c.calls) <= c.calls
    ensures created <==> old(Closes(c.TheView(), ts, m, name)) && !c.Refused(old(c.calls), c.calls)
    ensures !created ==> ph == 0 && SameTree(old(c.TheView()), c.TheView(), ts)
    ensures created ==> NodeAdded(old(c.TheView()), c.TheView(), ts, ts', m, name, at)
    ensures created && old(Handles(c.TheView(), ts)) ==> (ph == 0 <==> old(c.nodesUsed == |c.nodeTbl|))
    ensures ph > 0 ==> created && ph < c.nodesUsed && c.nodeTbl[ph] == c.structs.start + at
  {
    hide ViewOf, Wf, Represents, Size, Items, NodeAdded, Looking, InOrder, Reads, Closes, Handles;
    ghost var v, news := c.TheView(), [T.Open(name), T.Close];
    ph, created, ts', at := 0, false, ts, 0;
    NoChange(v, ts);
    StructReads(v, ts);
    c.RefusedNone(c.calls);
    var p, depth := start, 1;
    ghost var k := i;
    while true
      invariant c.Valid() && c.TheView() == v && k <= |ts| && p == c.structs.start + Size(ts[..k]) && depth >= 1
      invariant c.nodesUsed == old(c.nodesUsed) && |c.nodeTbl| == old(|c.nodeTbl|) && c.calls == old(c.calls)
      invariant Looking(TheItems(v, ts), m, news, k, depth - 1)
      decreases |ts| - k
    {
      var more, next, t := FtNext(c, p, ts, k);
      if !more {
        NotFound(v, ts, m, name, depth - 1);
        return;
      }
      SameKinds(v, ts, k);
      LookOn(TheItems(v, ts), m, news, k, depth - 1);
      match t {
        case Begin(_) =>
          depth := depth + 1;
        case EndNode =>
          depth := depth - 1;
          if depth == 0 {
            // what comes next closes the parent
            FoundCloses(v, ts, k, m, name);
            ph, created, ts', at := Append(c, p, name, v, ts, k, m);
            return;
          }
        case _ =>
      }
      p := next;
      k := k + 1;
    }
  }

  lemma KeptSize(nodes: seq<int>, nodes': seq<int>, ts: seq<Token>, ts': seq<Token>, from: nat, born: nat)
    requires NodesKept(nodes, nodes', ts, ts', from, born)
    ensures |nodes'| == |nodes|
  {
  }

  method Append(c: Cxt, p: int, name: seq<byte>, ghost v: View, ghost ts: seq<Token>, ghost k: nat, ghost m: nat)
    returns (ph: nat, ghost created: bool, ghost ts': seq<Token>, ghost at: nat)
    requires c.Valid() && Represents(c.TheView(), ts) && IsString(name) && v == c.TheView()
    requires k < |ts| && ts[k].EndNode? && p == c.structs.start + Size(ts[..k])
    requires k <= |TheItems(v, ts)| && Looking(TheItems(v, ts), m, [T.Open(name), T.Close], k, 0)
    modifies c
    ensures c.Valid() && |c.nodeTbl| == old(|c.nodeTbl|) && old(c.nodesUsed) <= c.nodesUsed && old(c.calls) <= c.calls
    ensures created <==> !c.Refused(old(c.calls), c.calls)
    ensures !created ==> ph == 0 && SameTree(v, c.TheView(), ts)
    ensures created ==> NodeAdded(v, c.TheView(), ts, ts', m, name, at)
    ensures created && Handles(v, ts) ==> (ph == 0 <==> old(c.nodesUsed == |c.nodeTbl|))
    ensures ph > 0 ==> created && ph < c.nodesUsed && c.nodeTbl[ph] == c.structs.start + at
  {
    hide ViewOf, Wf, Represents, Size, Items, Begins, Edited, NodeAdded, Looking, InOrder, Handles;
    ph, ts', at := 0, ts, 0;
    assert ts[..k] + ts[k..] == ts;
    SetPosition(c, p);
    SameView(v, c.TheView(), ts, k);
    ghost var u := c.TheView();
    var ok, node := InsertNode(c, name, ts[..k], ts[k..]);
    created := ok;
    if !ok {
      return;
    }
    ghost var w := c.TheView();
    EditedSame(v, u, w, ts[..k], [], NodeTokens(name), ts[k..], [T.Open(name), T.Close]);
    StructIs(c.TheLayout());
    if Handles(v, ts) { NewPlace(c, v, w, ts, k, name); }
    ph := GetPhandle(c, node);
    ts', at := ts[..k] + NodeTokens(name) + ts[k..], Size(ts[..k]);
    AddedIs(v, w, c.TheView(), ts, k, m, name);
  }

  // ----- Main results

  lemma {:induction false} OpensNoSkips(xs: seq<T.Item>)
    ensures Opens(T.NoSkips(xs)) == Opens(xs)
  {
    if |xs| > 0 {
      OpensFirst(xs);
      OpensNoSkips(xs[1..]);
      if !xs[0].Skip? {
        OpensFirst(T.NoSkips(xs));
        assert T.NoSkips(xs)[1..] == T.NoSkips(xs[1..]);
      }
    }
  }

  lemma {:induction false} OpensConcat(a: seq<T.Item>, b: seq<T.Item>)
    ensures Opens(a + b) == Opens(a) + Opens(b)
  {
    if |b| == 0 {
      assert a + b == a;
    } else {
      assert (a + b)[..|a + b| - 1] == a + b[..|b| - 1];
      OpensConcat(a, b[..|b| - 1]);
    }
  }

  lemma {:induction false} OpensProps(props: seq<T.Property>)
    ensures Opens(T.FlatProps(props)) == 0
  {
    if |props| > 0 {
      OpensFirst(T.FlatProps(props));
      assert T.FlatProps(props)[1..] == T.FlatProps(props[1..]);
      OpensProps(props[1..]);
    }
  }

  /** A tree's nodes are as many as its flattened form opens. */
  lemma {:induction false} OpensFlat(n: T.Node)
    ensures Opens(T.Flat(n)) == T.Count(n)
    decreases n, 0
  {
    var o, e := [T.Open(n.name)], [T.Close];
    assert o[..0] == [] && e[..0] == [];
    OpensProps(n.props);
    OpensFlatAll(n.children);
    OpensConcat(o, T.FlatProps(n.props));
    OpensConcat(o + T.FlatProps(n.props), T.FlatAll(n.children));
    OpensConcat(o + T.FlatProps(n.props) + T.FlatAll(n.children), e);
  }

  lemma {:induction false} OpensFlatAll(ns: seq<T.Node>)
    ensures Opens(T.FlatAll(ns)) == T.CountAll(ns)
    decreases ns, 1
  {
    if |ns| > 0 {
      OpensFlat(ns[0]);
      OpensFlatAll(ns[1..]);
      OpensConcat(T.Flat(ns[0]), T.FlatAll(ns[1..]));
    }
  }

  /** A node's number is less than the number of nodes. */
  lemma NumberBound(v: View, ts: seq<Token>, off: int, m: nat, tree: T.Node)
    requires IsNode(ts, off, m) && T.IsTree(TheItems(v, ts), tree)
    ensures m < T.Count(tree)
  {
    hide Size, Items, IsNode, Opens, T.Flat;
    var j := NodeElim(ts, off, m);
    OpensBegins(v, ts);
    OpensNoSkips(TheItems(v, ts));
    OpensFlat(tree);
    assert ts == ts[..j + 1] + ts[j + 1..];
    BeginsConcat(ts[..j + 1], ts[j + 1..]);
    assert ts[..j + 1][..j] == ts[..j];
  }

  /** Setting a property of a node refines setting it in the tree: reading the flattened tree again
    * gives the old tree with that property set, and nothing else changed. */
  lemma SetPropTree(v: View, w: View, ts: seq<Token>, ts': seq<Token>, off: int, m: nat, p: T.Property, tree: T.Node)
    requires PropSet(v, w, ts, ts', m, p) && IsNode(ts, off, m) && T.IsTree(TheItems(v, ts), tree)
    ensures m < T.Count(tree) && T.IsTree(TheItems(w, ts'), T.SetPropAt(tree, m, p))
  {
    hide IsNode, Represents, NodesKept, Items, T.IsTree;
    NumberBound(v, ts, off, m, tree);
    T.SetPropRefines(TheItems(v, ts), tree, m, p);
  }

  /** Adding a node refines giving the parent a new last child. */
  lemma AddNodeTree(v: View, w: View, ts: seq<Token>, ts': seq<Token>, off: int, m: nat, name: seq<byte>, at: nat, tree: T.Node)
    requires NodeAdded(v, w, ts, ts', m, name, at) && IsNode(ts, off, m) && T.IsTree(TheItems(v, ts), tree)
    ensures m < T.Count(tree) && T.IsTree(TheItems(w, ts'), T.AddChildAt(tree, m, T.Node(name, [], [])))
  {
    hide IsNode, Represents, NodesKept, Items, T.IsTree;
    NumberBound(v, ts, off, m, tree);
    T.AddChildRefines(TheItems(v, ts), tree, m, name);
  }
}
