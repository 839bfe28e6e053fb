/** Runs of edits: reading the blob gives the edited tree each time, and every node handed out stays the
  * node it was, at its path in the tree.
  */
module FtRun {
  import opened Bits
  import opened FtBlob
  import opened FtLayout
  import opened FtSpace
  import opened FtTokens
  import opened FtNames
  import opened FtEdit
  import opened FtCreate
  import opened FtPaths
  import T = FtTree

  /** Nodes are given by their numbers in preorder.  Any edit may also fail. */
  datatype Edit =
    | SetProperty(node: nat, prop: T.Property)
    | AddNode(parent: nat, name: seq<byte>)
    | HandOut(found: nat)
    | Failed

  /** What is in the blob, the tokens of its structure, and the tree they make. */
  datatype State = State(view: View, tokens: seq<Token>, tree: T.Node)

  ghost predicate Good(s: State) {
    && Represents(s.view, s.tokens)
    && T.IsTree(TheItems(s.view, s.tokens), s.tree)
    && Handles(s.view, s.tokens)
  }

  function Leaf(name: seq<byte>): T.Node {
    T.Node(name, [], [])
  }

  /** What an edit does: to the blob, what is promised of the methods; to the tree, the edit, or nothing if it
    * failed. */
  ghost predicate Edits(a: State, e: Edit, b: State) {
    match e
    case SetProperty(m, p) =>
      && m < T.Count(a.tree)
      && PropSet(a.view, b.view, a.tokens, b.tokens, m, p)
      && b.tree == T.SetPropAt(a.tree, m, p)
    case AddNode(m, name) =>
      && m < T.Count(a.tree)
      && (exists at: nat :: NodeAdded(a.view, b.view, a.tokens, b.tokens, m, name, at))
      && b.tree == T.AddChildAt(a.tree, m, Leaf(name))
    case HandOut(m) =>
      && b.tokens == a.tokens && b.tree == a.tree
      && |b.view.nodes| == |a.view.nodes| + 1 && b.view == a.view.(nodes := a.view.nodes + [b.view.nodes[|a.view.nodes|]])
      && IsNode(a.tokens, b.view.nodes[|a.view.nodes|], m)
    case Failed =>
      b.tokens == a.tokens && b.tree == a.tree && SameTree(a.view, b.view, a.tokens)
  }

  /** Handle `h` stands for the node at the end of `path`. */
  ghost predicate Stands(s: State, h: nat, path: seq<nat>) {
    h < |s.view.nodes| && exists m: nat :: StandsFor(s, h, path, m)
  }

  ghost predicate StandsFor(s: State, h: nat, path: seq<nat>, m: nat)
    requires h < |s.view.nodes|
  {
    m < T.Count(s.tree) && IsNode(s.tokens, s.view.nodes[h], m) && PathOf(s.tree, m) == path
  }

  ghost predicate Run(states: seq<State>, edits: seq<Edit>) {
    |states| == |edits| + 1 && forall i :: 0 <= i < |edits| ==> Edits(states[i], edits[i], states[i + 1])
  }

  // ----- One edit

  /** Reading the blob again gives the edited tree. */
  lemma EditGood(a: State, e: Edit, b: State)
    requires Good(a) && Edits(a, e, b)
    ensures Good(b)
  {
    hide Represents, IsNode, T.IsTree, Items;
    match e {
      case SetProperty(m, p) =>
        T.SetPropRefines(TheItems(a.view, a.tokens), a.tree, m, p);
        KeptHandles(a.view.nodes, b.view.nodes, a.tokens, b.tokens, 0, 0);
      case AddNode(m, name) =>
        var at: nat :| NodeAdded(a.view, b.view, a.tokens, b.tokens, m, name, at);
        T.AddChildRefines(TheItems(a.view, a.tokens), a.tree, m, name);
        KeptHandles(a.view.nodes, b.view.nodes[..|a.view.nodes|], a.tokens, b.tokens, T.NewNumber(TheItems(a.view, a.tokens), m), 1);
        assert StartsNode(b.tokens, at);
      case HandOut(m) =>
        RepresentsNodes(a.view, b.view, a.tokens);
        assert StartsNode(a.tokens, b.view.nodes[|a.view.nodes|]);
      case Failed =>
    }
  }

  lemma RepresentsNodes(v: View, w: View, ts: seq<Token>)
    requires Represents(v, ts) && w == v.(nodes := w.nodes)
    ensures Represents(w, ts) && TheItems(w, ts) == TheItems(v, ts)
  {
    hide Reads, Named;
  }

  lemma KeptHandles(nodes: seq<int>, nodes': seq<int>, ts: seq<Token>, ts': seq<Token>, from: nat, born: nat)
    requires NodesKept(nodes, nodes', ts, ts', from, born)
    requires forall i :: 0 <= i < |nodes| ==> StartsNode(ts, nodes[i])
    ensures forall i :: 0 <= i < |nodes'| ==> StartsNode(ts', nodes'[i])
  {
    hide IsNode;
    forall i | 0 <= i < |nodes'| ensures StartsNode(ts', nodes'[i]) {
      assert StartsNode(ts, nodes[i]);
      var m: nat :| IsNode(ts, nodes[i], m);
      assert IsNode(ts', nodes'[i], if m >= from then m + born else m);
    }
  }

  /** A node handed out stays the same node of the tree: at its path, with its name. */
  lemma EditKeeps(a: State, e: Edit, b: State, h: nat, path: seq<nat>)
    requires Good(a) && Edits(a, e, b) && Stands(a, h, path)
    ensures Stands(b, h, path) && Follow(b.tree, path).name == Follow(a.tree, path).name
  {
    hide Represents, IsNode, T.IsTree, Items, T.Count, PathOf, Follow;
    var m: nat :| StandsFor(a, h, path, m);
    FollowsPath(a.tree, m);
    match e {
      case SetProperty(n, p) =>
        SetPropKeeps(a.tree, n, p, m);
        FollowsPath(b.tree, m);
        assert StandsFor(b, h, path, m);
      case AddNode(n, name) =>
        var at: nat :| NodeAdded(a.view, b.view, a.tokens, b.tokens, n, name, at);
        NewNumberIs(TheItems(a.view, a.tokens), a.tree, n);
        AddChildKeeps(a.tree, n, Leaf(name), m);
        LeafCount(name);
        var m' := if m >= ChildNumber(a.tree, n) then m + 1 else m;
        FollowsPath(b.tree, m');
        assert b.view.nodes[..|a.view.nodes|][h] == b.view.nodes[h];
        assert StandsFor(b, h, path, m');
      case _ =>
        assert StandsFor(b, h, path, m);
    }
  }

  lemma LeafCount(name: seq<byte>)
    ensures T.Count(Leaf(name)) == 1
  {
  }

  /** A new node, if it is handed out, stands for the last child of its parent. */
  lemma NewStands(a: State, m: nat, name: seq<byte>, b: State)
    requires Good(a) && Edits(a, AddNode(m, name), b) && |b.view.nodes| > |a.view.nodes|
    ensures var path := PathOf(a.tree, m) + [|NodeAt(a.tree, m).children|];
            Stands(b, |a.view.nodes|, path) && Follow(b.tree, path) == Leaf(name)
    // brothers and sisters of that name do not matter
    ensures NodeAt(b.tree, m).children == NodeAt(a.tree, m).children + [Leaf(name)]
  {
    hide Represents, IsNode, T.IsTree, Items, T.Count, PathOf, Follow, NodeAt, NodesKept;
    var at: nat :| NodeAdded(a.view, b.view, a.tokens, b.tokens, m, name, at);
    NewNumberIs(TheItems(a.view, a.tokens), a.tree, m);
    AddChildCount(a.tree, m, Leaf(name));
    AddChildThere(a.tree, m, Leaf(name));
    LeafCount(name);
    var k := ChildNumber(a.tree, m);
    FollowsPath(b.tree, k);
    assert StandsFor(b, |a.view.nodes|, PathOf(a.tree, m) + [|NodeAt(a.tree, m).children|], k);
  }

  // ----- Runs

  /** Whatever edits follow each other, the blob reads as the edited tree, and every handle stands for
    * the node it was given for. */
  lemma {:induction false} RunKeeps(states: seq<State>, edits: seq<Edit>, h: nat, path: seq<nat>)
    requires Run(states, edits) && Good(states[0]) && Stands(states[0], h, path)
    ensures var last := states[|edits|];
            && Good(last) && Stands(last, h, path)
            && Follow(last.tree, path).name == Follow(states[0].tree, path).name
    decreases |edits|
  {
    hide Good, Stands, Edits, Follow;
    if |edits| > 0 {
      EditGood(states[0], edits[0], states[1]);
      EditKeeps(states[0], edits[0], states[1], h, path);
      RunTail(states, edits);
      RunKeeps(states[1..], edits[1..], h, path);
    }
  }

  lemma RunTail(states: seq<State>, edits: seq<Edit>)
    requires Run(states, edits) && |edits| > 0
    ensures Run(states[1..], edits[1..])
  {
    hide Edits;
    forall i | 0 <= i < |edits| - 1 ensures Edits(states[1..][i], edits[1..][i], states[1..][i + 1]) {
      assert Edits(states[i + 1], edits[i + 1], states[i + 2]);
    }
  }

  /** The tree at the end of a run is the one its edits make, one after the other. */
  function EditedTree(tree: T.Node, edits: seq<Edit>): T.Node
    decreases |edits|
  {
    if |edits| == 0 then tree
    else
      EditedTree(match edits[0]
             case SetProperty(m, p) => T.SetPropAt(tree, m, p)
             case AddNode(m, name) => T.AddChildAt(tree, m, Leaf(name))
             case _ => tree,
             edits[1..])
  }

  lemma {:induction false} RunIsEdited(states: seq<State>, edits: seq<Edit>)
    requires Run(states, edits) && Good(states[0])
    ensures var last := states[|edits|];
            last.tree == EditedTree(states[0].tree, edits) && T.IsTree(TheItems(last.view, last.tokens), last.tree)
    decreases |edits|
  {
    hide Represents, IsNode, T.IsTree, Items, PropSet, NodeAdded, Handles;
    if |edits| > 0 {
      EditGood(states[0], edits[0], states[1]);
      RunTail(states, edits);
      RunIsEdited(states[1..], edits[1..]);
    }
  }

  // ----- In a tree, edits have all they look for

  /** A child can be added to any node. */
  lemma TreeCloses(v: View, ts: seq<Token>, tree: T.Node, m: nat, name: seq<byte>)
    requires T.IsTree(TheItems(v, ts), tree) && m < T.Count(tree)
    ensures Closes(v, ts, m, name)
  {
    hide Items, T.IsTree, T.Count;
    if !Closes(v, ts, m, name) {
      T.AddChildRefines(TheItems(v, ts), tree, m, name);
      OneTree(TheItems(v, ts), tree, T.AddChildAt(tree, m, Leaf(name)));
      AddChildCount(tree, m, Leaf(name));
      LeafCount(name);
    }
  }

  lemma {:induction false} CloseAfter(xs: seq<T.Item>, j: nat)
    requires j < |xs| && xs[j].Open?
    requires |T.NoSkips(xs)| > 0 && T.NoSkips(xs)[|T.NoSkips(xs)| - 1].Close?
    ensures exists k :: j < k < |xs| && xs[k].Close?
  {
    var x, ys := xs[0], xs[1..];
    var zs := T.NoSkips(ys);
    if j > 0 {
      OpenStays(ys, j - 1);
      CloseAfter(ys, j - 1);
      var k :| j - 1 < k < |ys| && ys[k].Close?;
      assert xs[k + 1].Close?;
    } else {
      CloseIn(ys);
      var k :| 0 <= k < |ys| && ys[k].Close?;
      assert xs[k + 1].Close?;
    }
  }

  lemma {:induction false} OpenStays(xs: seq<T.Item>, j: nat)
    requires j < |xs| && xs[j].Open?
    ensures |T.NoSkips(xs)| > 0
  {
    if j > 0 { OpenStays(xs[1..], j - 1); }
  }

  lemma {:induction false} CloseIn(xs: seq<T.Item>)
    requires |T.NoSkips(xs)| > 0 && T.NoSkips(xs)[|T.NoSkips(xs)| - 1].Close?
    ensures exists k :: 0 <= k < |xs| && xs[k].Close?
  {
    if !xs[0].Close? {
      CloseIn(xs[1..]);
      var k :| 0 <= k < |xs[1..]| && xs[1..][k].Close?;
      assert xs[k + 1].Close?;
    }
  }

  lemma FlatEnds(n: T.Node)
    ensures |T.Flat(n)| > 0 && T.Flat(n)[|T.Flat(n)| - 1].Close?
  {
  }

  /** The search for a property of a node always stops. */
  lemma TreeSearchable(v: View, ts: seq<Token>, tree: T.Node, off: int, m: nat, name: seq<byte>)
    requires T.IsTree(TheItems(v, ts), tree) && IsNode(ts, off, m)
    ensures Searchable(v, ts, m, name)
  {
    hide Items, Size, Begins, IsNode, T.NoSkips, T.Flat;
    var j := NodeElim(ts, off, m);
    FlatEnds(tree);
    SameKinds(v, ts, j);
    CloseAfter(TheItems(v, ts), j);
    var k :| j < k < |ts| && TheItems(v, ts)[k].Close?;
    var i := FirstStop(v, ts, j, k, name);
    assert Stopped(v, ts, j, i, m, name);
  }

  lemma {:induction false} FirstStop(v: View, ts: seq<Token>, j: nat, k: nat, name: seq<byte>) returns (i: nat)
    requires j < k < |ts| && StopsAt(TheItems(v, ts)[k], name)
    ensures j < i < |ts| && StopsAt(TheItems(v, ts)[i], name) && forall n :: j < n < i ==> !StopsAt(TheItems(v, ts)[n], name)
    decreases k - j
  {
    hide Items, StopsAt;
    if n :| j < n < k && StopsAt(TheItems(v, ts)[n], name) {
      i := FirstStop(v, ts, j, n, name);
    } else {
      i := k;
    }
  }
}
