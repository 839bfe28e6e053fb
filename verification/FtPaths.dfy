/** Nodes of a device tree by their path, and by their number in preorder. */
module FtPaths {
  import opened Bits
  import opened FtTree

  // ----- A flattened form belongs to one tree only

  lemma {:induction false} PropsUnique(ps: seq<Property>, qs: seq<Property>, rest: seq<Item>, rest': seq<Item>)
    requires FlatProps(ps) + rest == FlatProps(qs) + rest'
    requires |rest| > 0 && !rest[0].Prop? && |rest'| > 0 && !rest'[0].Prop?
    ensures ps == qs && rest == rest'
  {
    FlatPropsIs(ps);
    FlatPropsIs(qs);
    hide FlatProps;
    var xs, ys := FlatProps(ps) + rest, FlatProps(qs) + rest';
    if |ps| > 0 { Cons(Prop(ps[0]), FlatProps(ps[1..]), rest); } else { assert xs == rest; }
    if |qs| > 0 { Cons(Prop(qs[0]), FlatProps(qs[1..]), rest'); } else { assert ys == rest'; }
    if |ps| > 0 && |qs| > 0 {
      PropsUnique(ps[1..], qs[1..], rest, rest');
      assert ps == [ps[0]] + ps[1..] && qs == [qs[0]] + qs[1..];
    }
  }

  lemma {:induction false} FlatUnique(n: Node, n': Node, rest: seq<Item>, rest': seq<Item>)
    requires Flat(n) + rest == Flat(n') + rest'
    ensures n == n' && rest == rest'
    decreases n, 0
  {
    hide Flat, FlatAll, FlatProps;
    FlatParts(n, rest);
    FlatParts(n', rest');
    var xs, ys := FlatAll(n.children) + ([Close] + rest), FlatAll(n'.children) + ([Close] + rest');
    Tails([Open(n.name)], FlatProps(n.props) + xs, [Open(n'.name)], FlatProps(n'.props) + ys);
    AfterProps(n.children, rest);
    AfterProps(n'.children, rest');
    PropsUnique(n.props, n'.props, xs, ys);
    AllUnique(n.children, n'.children, rest, rest');
  }

  lemma Tails(a: seq<Item>, b: seq<Item>, c: seq<Item>, d: seq<Item>)
    requires a + b == c + d && |a| == |c|
    ensures a == c && b == d
  {
    assert a == (a + b)[..|a|] && c == (c + d)[..|c|] && b == (a + b)[|a|..] && d == (c + d)[|c|..];
  }

  lemma {:induction false} AllUnique(ns: seq<Node>, ns': seq<Node>, rest: seq<Item>, rest': seq<Item>)
    requires FlatAll(ns) + ([Close] + rest) == FlatAll(ns') + ([Close] + rest')
    ensures ns == ns' && rest == rest'
    decreases ns, 1
  {
    hide Flat, FlatAll;
    var tail, tail' := [Close] + rest, [Close] + rest';
    FlatAllFirst(ns, tail);
    FlatAllFirst(ns', tail');
    if |ns| > 0 && |ns'| > 0 {
      FlatUnique(ns[0], ns'[0], FlatAll(ns[1..]) + tail, FlatAll(ns'[1..]) + tail');
      AllUnique(ns[1..], ns'[1..], rest, rest');
      assert ns == [ns[0]] + ns[1..] && ns' == [ns'[0]] + ns'[1..];
    } else {
      Tails([Close], rest, [Close], rest');
    }
  }

  lemma FlatAllFirst(ns: seq<Node>, rest: seq<Item>)
    ensures if |ns| == 0 then FlatAll(ns) + rest == rest
            else FlatAll(ns) + rest == Flat(ns[0]) + (FlatAll(ns[1..]) + rest)
                 && |FlatAll(ns) + rest| > 0 && (FlatAll(ns) + rest)[0] == Open(ns[0].name)
  {
    if |ns| > 0 {
      Assoc(Flat(ns[0]), FlatAll(ns[1..]), rest);
      assert Flat(ns[0])[0] == Open(ns[0].name);
    }
  }

  /** Reading a flattened form gives one tree. */
  lemma OneTree(xs: seq<Item>, n: Node, n': Node)
    requires IsTree(xs, n) && IsTree(xs, n')
    ensures n == n'
  {
    hide Flat;
    assert Flat(n) + [] == Flat(n') + [];
    FlatUnique(n, n', [], []);
  }

  // ----- Numbers and paths

  /** The way from the root to node number `m`: which child is taken at each level. */
  function PathOf(n: Node, m: nat): seq<nat>
    decreases n, 0
  {
    if m == 0 then [] else PathIn(n.children, 0, m - 1)
  }

  function PathIn(ns: seq<Node>, i: nat, m: nat): seq<nat>
    decreases ns, 1
  {
    if |ns| == 0 then []
    else if m < Count(ns[0]) then [i] + PathOf(ns[0], m)
    else PathIn(ns[1..], i + 1, m - Count(ns[0]))
  }

  /** Node number `m`. */
  function NodeAt(n: Node, m: nat): Node
    decreases n, 0
  {
    if m == 0 then n else NodeIn(n.children, m - 1, n)
  }

  function NodeIn(ns: seq<Node>, m: nat, none: Node): Node
    decreases ns, 1
  {
    if |ns| == 0 then none
    else if m < Count(ns[0]) then NodeAt(ns[0], m)
    else NodeIn(ns[1..], m - Count(ns[0]), none)
  }

  /** The node at the end of a path, or `n` itself where there is none. */
  function Follow(n: Node, path: seq<nat>): Node {
    if |path| == 0 || path[0] >= |n.children| then n else Follow(n.children[path[0]], path[1..])
  }

  lemma {:induction false} FollowsPath(n: Node, m: nat)
    requires m < Count(n)
    ensures Follow(n, PathOf(n, m)) == NodeAt(n, m)
    decreases n, 0
  {
    if m > 0 {
      FollowsIn(n, n.children, 0, m - 1);
    }
  }

  lemma {:induction false} FollowsIn(n: Node, ns: seq<Node>, i: nat, m: nat)
    requires i + |ns| == |n.children| && ns == n.children[i..] && m < CountAll(ns)
    ensures Follow(n, PathIn(ns, i, m)) == NodeIn(ns, m, n)
    decreases ns, 1
  {
    if m < Count(ns[0]) {
      FollowsPath(ns[0], m);
      assert ([i] + PathOf(ns[0], m))[1..] == PathOf(ns[0], m);
    } else {
      FollowsIn(n, ns[1..], i + 1, m - Count(ns[0]));
    }
  }

  // ----- What edits keep

  lemma CountCons(n: Node, ns: seq<Node>)
    ensures CountAll([n] + ns) == Count(n) + CountAll(ns)
  {
    assert ([n] + ns)[1..] == ns;
  }

  lemma PathCons(n: Node, ns: seq<Node>, i: nat, m: nat, none: Node)
    ensures PathIn([n] + ns, i, m) == if m < Count(n) then [i] + PathOf(n, m) else PathIn(ns, i + 1, m - Count(n))
    ensures NodeIn([n] + ns, m, none) == if m < Count(n) then NodeAt(n, m) else NodeIn(ns, m - Count(n), none)
  {
    assert ([n] + ns)[1..] == ns;
  }

  /** Nodes are the same but for children, and perhaps one's properties. */
  predicate Alike(a: Node, b: Node) {
    a.name == b.name && a.props == b.props
  }

  /** Setting a property of node number `m` leaves every node where it is, with its name, and all
    * others with their properties. */
  lemma {:induction false} SetPropKeeps(n: Node, m: nat, p: Property, i: nat)
    requires i < Count(n)
    ensures var n' := SetPropAt(n, m, p);
            && Count(n') == Count(n) && PathOf(n', i) == PathOf(n, i) && NodeAt(n', i).name == NodeAt(n, i).name
            && NodeAt(n', i).props == if i == m then SetProps(NodeAt(n, i).props, p) else NodeAt(n, i).props
    decreases n, 0
  {
    if m > 0 {
      SetPropKeepsAll(n.children, m - 1, p, 0, if i == 0 then 0 else i - 1, n, SetPropAt(n, m, p));
    } else {
      NodeInAny(n.children, i - 1, n, SetPropAt(n, m, p));
    }
  }

  lemma {:induction false} SetPropKeepsAll(ns: seq<Node>, m: nat, p: Property, at: nat, i: nat, none: Node, none': Node)
    ensures var ns' := SetPropAll(ns, m, p);
            && CountAll(ns') == CountAll(ns)
            && (i < CountAll(ns) ==>
                  && PathIn(ns', at, i) == PathIn(ns, at, i) && NodeIn(ns', i, none').name == NodeIn(ns, i, none).name
                  && NodeIn(ns', i, none').props == if i == m then SetProps(NodeIn(ns, i, none).props, p) else NodeIn(ns, i, none).props)
    decreases ns, 1
  {
    hide Count, PathOf, NodeAt, SetPropAt;
    if |ns| > 0 {
      var n, others := ns[0], ns[1..];
      var k := m - Count(n);
      SetPropCount(n, m, p);
      PathCons(n, others, at, i, none);
      assert ns == [n] + others;
      if m < Count(n) {
        if i < Count(n) { SetPropKeeps(n, m, p, i); }
        CountCons(SetPropAt(n, m, p), others);
        PathCons(SetPropAt(n, m, p), others, at, i, none');
        NodeInAny(others, i - Count(n), none, none');
      } else {
        SetPropKeepsAll(others, k, p, at + 1, if i < Count(n) then 0 else i - Count(n), none, none');
        CountCons(n, SetPropAll(others, k, p));
        PathCons(n, SetPropAll(others, k, p), at, i, none');
      }
    }
  }

  lemma {:induction false} NodeInAny(ns: seq<Node>, m: int, none: Node, none': Node)
    ensures 0 <= m < CountAll(ns) ==> NodeIn(ns, m, none) == NodeIn(ns, m, none')
  {
    if |ns| > 0 { NodeInAny(ns[1..], m - Count(ns[0]), none, none'); }
  }

  lemma SetPropCount(n: Node, m: nat, p: Property)
    ensures Count(SetPropAt(n, m, p)) == Count(n)
    decreases n, 1
  {
    SetPropKeeps(n, m, p, 0);
  }

  /** The number of a child added to node number `m`. */
  function ChildNumber(n: Node, m: nat): nat {
    m + Count(NodeAt(n, m))
  }

  /** Adding a last child to node number `m` leaves every node where it is, as it is; their numbers
    * go up from where the child comes in. */
  lemma {:induction false} AddChildKeeps(n: Node, m: nat, c: Node, i: nat)
    requires m < Count(n) && i < Count(n)
    ensures var n', k := AddChildAt(n, m, c), ChildNumber(n, m);
            var i' := if i >= k then i + Count(c) else i;
            && k <= Count(n) && Count(n') == Count(n) + Count(c)
            && PathOf(n', i') == PathOf(n, i) && Alike(NodeAt(n', i'), NodeAt(n, i))
    decreases n, 0
  {
    var n' := AddChildAt(n, m, c);
    if m == 0 {
      CountConcat(n.children, [c]);
      CountCons(c, []);
      assert [c] + [] == [c];
      if i > 0 { InConcat(n.children, [c], 0, i - 1, n, n'); }
    } else {
      AddChildKeepsAll(n.children, m - 1, c, 0, if i == 0 then 0 else i - 1, n, n');
    }
  }

  lemma {:induction false} AddChildKeepsAll(ns: seq<Node>, m: nat, c: Node, at: nat, i: nat, none: Node, none': Node)
    requires m < CountAll(ns)
    ensures var ns', k := AddChildAll(ns, m, c), m + Count(NodeIn(ns, m, none));
            var i' := if i >= k then i + Count(c) else i;
            && k <= CountAll(ns) && CountAll(ns') == CountAll(ns) + Count(c)
            && (i < CountAll(ns) ==>
                  PathIn(ns', at, i') == PathIn(ns, at, i) && Alike(NodeIn(ns', i', none'), NodeIn(ns, i, none)))
    decreases ns, 1
  {
    hide Count, PathOf, NodeAt, AddChildAt, Alike;
    var n, others := ns[0], ns[1..];
    assert ns == [n] + others;
    CountCons(n, others);
    PathCons(n, others, at, i, none);
    PathCons(n, others, at, m, none);
    if m < Count(n) {
      AddChildCount(n, m, c);
      var k := m + Count(NodeAt(n, m));
      var i' := if i >= k then i + Count(c) else i;
      if i < Count(n) { AddChildKeeps(n, m, c, i); }
      CountCons(AddChildAt(n, m, c), others);
      PathCons(AddChildAt(n, m, c), others, at, i', none');
      NodeInAny(others, i - Count(n), none, none');
      AlikeSame(NodeIn(others, if i < Count(n) then 0 else i - Count(n), none));
    } else {
      var j := m - Count(n);
      AddChildKeepsAll(others, j, c, at + 1, if i < Count(n) then 0 else i - Count(n), none, none');
      var k := m + Count(NodeIn(ns, m, none));
      var i' := if i >= k then i + Count(c) else i;
      CountCons(n, AddChildAll(others, j, c));
      PathCons(n, AddChildAll(others, j, c), at, i', none');
      AlikeSame(NodeAt(n, i));
    }
  }

  lemma AlikeSame(a: Node)
    ensures Alike(a, a)
  {
  }

  lemma AddChildCount(n: Node, m: nat, c: Node)
    requires m < Count(n)
    ensures Count(AddChildAt(n, m, c)) == Count(n) + Count(c) && m + Count(NodeAt(n, m)) <= Count(n)
    decreases n, 1
  {
    AddChildKeeps(n, m, c, 0);
  }

  lemma {:induction false} CountConcat(a: seq<Node>, b: seq<Node>)
    ensures CountAll(a + b) == CountAll(a) + CountAll(b)
  {
    if |a| == 0 {
      assert a + b == b;
    } else {
      assert (a + b)[0] == a[0] && (a + b)[1..] == a[1..] + b;
      CountConcat(a[1..], b);
    }
  }

  lemma {:induction false} InConcat(a: seq<Node>, b: seq<Node>, at: nat, i: nat, none: Node, none': Node)
    ensures i < CountAll(a) ==> PathIn(a + b, at, i) == PathIn(a, at, i) && NodeIn(a + b, i, none') == NodeIn(a, i, none)
    ensures i >= CountAll(a) ==> PathIn(a + b, at, i) == PathIn(b, at + |a|, i - CountAll(a))
                                 && NodeIn(a + b, i, none') == NodeIn(b, i - CountAll(a), none')
  {
    if |a| == 0 {
      assert a + b == b;
    } else {
      assert (a + b)[0] == a[0] && (a + b)[1..] == a[1..] + b;
      if i >= Count(a[0]) { InConcat(a[1..], b, at + 1, i - Count(a[0]), none, none'); }
    }
  }

  /** The new child is where it was to go, and is the child. */
  lemma {:induction false} AddChildThere(n: Node, m: nat, c: Node)
    requires m < Count(n)
    ensures var n', k := AddChildAt(n, m, c), ChildNumber(n, m);
            && PathOf(n', k) == PathOf(n, m) + [|NodeAt(n, m).children|] && NodeAt(n', k) == c
            && NodeAt(n', m).children == NodeAt(n, m).children + [c]
    decreases n, 0
  {
    var n' := AddChildAt(n, m, c);
    if m == 0 {
      InConcat(n.children, [c], 0, CountAll(n.children), n, n');
      PathCons(c, [], |n.children|, 0, n');
      assert [c] + [] == [c];
      assert [|n.children|] + [] == [] + [|n.children|];
    } else {
      AddChildThereAll(n.children, m - 1, c, 0, n, n');
    }
  }

  lemma {:induction false} AddChildThereAll(ns: seq<Node>, m: nat, c: Node, at: nat, none: Node, none': Node)
    requires m < CountAll(ns)
    ensures var ns', k := AddChildAll(ns, m, c), m + Count(NodeIn(ns, m, none));
            && PathIn(ns', at, k) == PathIn(ns, at, m) + [|NodeIn(ns, m, none).children|] && NodeIn(ns', k, none') == c
            && NodeIn(ns', m, none').children == NodeIn(ns, m, none).children + [c]
    decreases ns, 1
  {
    hide Count, PathOf, NodeAt, AddChildAt;
    var n, others := ns[0], ns[1..];
    assert ns == [n] + others;
    CountCons(n, others);
    PathCons(n, others, at, m, none);
    var k := m + Count(NodeIn(ns, m, none));
    if m < Count(n) {
      AddChildThere(n, m, c);
      AddChildCount(n, m, c);
      CountPositive(c);
      PathCons(AddChildAt(n, m, c), others, at, k, none');
      PathCons(AddChildAt(n, m, c), others, at, m, none');
      assert [at] + (PathOf(n, m) + [|NodeAt(n, m).children|]) == [at] + PathOf(n, m) + [|NodeAt(n, m).children|];
    } else {
      var j := m - Count(n);
      AddChildThereAll(others, j, c, at + 1, none, none');
      PathCons(n, AddChildAll(others, j, c), at, k, none');
      PathCons(n, AddChildAll(others, j, c), at, m, none');
    }
  }

  lemma CountPositive(n: Node)
    ensures Count(n) > 0
  {
  }

  // ----- Where the new node comes in the flattened form

  lemma {:induction false} EndNumberProps(props: seq<Property>, rest: seq<Item>, depth: nat, m: nat)
    ensures EndNumber(FlatProps(props) + rest, depth) == EndNumber(rest, depth)
    ensures NewNumber(FlatProps(props) + rest, m) == NewNumber(rest, m)
  {
    if |props| == 0 {
      assert FlatProps(props) + rest == rest;
    } else {
      Cons(Prop(props[0]), FlatProps(props[1..]), rest);
      EndNumberProps(props[1..], rest, depth, m);
    }
  }

  lemma NumberCons(x: Item, xs: seq<Item>, depth: nat, m: nat)
    ensures EndNumber([x] + xs, depth) == if x.Close? then (if depth == 0 then 0 else EndNumber(xs, depth - 1))
                                          else if x.Open? then 1 + EndNumber(xs, depth + 1)
                                          else EndNumber(xs, depth)
    ensures NewNumber([x] + xs, m) == if x.Open? then 1 + (if m == 0 then EndNumber(xs, 0) else NewNumber(xs, m - 1))
                                      else NewNumber(xs, m)
  {
    assert ([x] + xs)[1..] == xs;
  }

  lemma {:induction false} EndNumberFlat(n: Node, rest: seq<Item>, depth: nat)
    ensures EndNumber(Flat(n) + rest, depth) == Count(n) + EndNumber(rest, depth)
    decreases n, 0
  {
    hide Flat, FlatAll, FlatProps, EndNumber, NewNumber;
    FlatParts(n, rest);
    var tail := [Close] + rest;
    var xs := FlatAll(n.children) + tail;
    NumberCons(Open(n.name), FlatProps(n.props) + xs, depth, 0);
    EndNumberProps(n.props, xs, depth + 1, 0);
    EndNumberAll(n.children, tail, depth + 1);
    NumberCons(Close, rest, depth + 1, 0);
  }

  lemma {:induction false} EndNumberAll(ns: seq<Node>, rest: seq<Item>, depth: nat)
    ensures EndNumber(FlatAll(ns) + rest, depth) == CountAll(ns) + EndNumber(rest, depth)
    decreases ns, 1
  {
    hide Flat, FlatAll, EndNumber, Count;
    FlatAllFirst(ns, rest);
    if |ns| > 0 {
      EndNumberFlat(ns[0], FlatAll(ns[1..]) + rest, depth);
      EndNumberAll(ns[1..], rest, depth);
    }
  }

  lemma {:induction false} NewNumberFlat(n: Node, m: nat, rest: seq<Item>)
    ensures NewNumber(Flat(n) + rest, m) == if m < Count(n) then ChildNumber(n, m) else Count(n) + NewNumber(rest, m - Count(n))
    decreases n, 0
  {
    hide Flat, FlatAll, FlatProps, EndNumber, NewNumber;
    FlatParts(n, rest);
    var tail := [Close] + rest;
    var xs := FlatAll(n.children) + tail;
    NumberCons(Open(n.name), FlatProps(n.props) + xs, 0, m);
    if m == 0 {
      EndNumberProps(n.props, xs, 0, 0);
      EndNumberAll(n.children, tail, 0);
      NumberCons(Close, rest, 0, 0);
    } else {
      EndNumberProps(n.props, xs, 0, m - 1);
      NewNumberAll(n.children, m - 1, tail, n);
      if m >= Count(n) { NumberCons(Close, rest, 0, m - Count(n)); }
    }
  }

  lemma {:induction false} NewNumberAll(ns: seq<Node>, m: nat, rest: seq<Item>, none: Node)
    ensures NewNumber(FlatAll(ns) + rest, m) ==
            if m < CountAll(ns) then m + Count(NodeIn(ns, m, none)) else CountAll(ns) + NewNumber(rest, m - CountAll(ns))
    decreases ns, 1
  {
    hide Flat, FlatAll, NewNumber, Count;
    FlatAllFirst(ns, rest);
    if |ns| > 0 {
      NewNumberFlat(ns[0], m, FlatAll(ns[1..]) + rest);
      if m >= Count(ns[0]) { NewNumberAll(ns[1..], m - Count(ns[0]), rest, none); }
    }
  }

  lemma {:induction false} EndNumberNoSkips(xs: seq<Item>, depth: nat)
    ensures EndNumber(NoSkips(xs), depth) == EndNumber(xs, depth)
  {
    if |xs| > 0 {
      var x, ys := xs[0], xs[1..];
      assert xs == [x] + ys;
      NoSkipsCons(x, ys);
      NumberCons(x, NoSkips(ys), depth, 0);
      EndNumberNoSkips(ys, if x.Close? then (if depth == 0 then 0 else depth - 1) else if x.Open? then depth + 1 else depth);
    }
  }

  lemma {:induction false} NewNumberNoSkips(xs: seq<Item>, m: nat)
    ensures NewNumber(NoSkips(xs), m) == NewNumber(xs, m)
  {
    if |xs| > 0 {
      var x, ys := xs[0], xs[1..];
      assert xs == [x] + ys;
      NoSkipsCons(x, ys);
      NumberCons(x, NoSkips(ys), 0, m);
      if x.Open? && m == 0 {
        EndNumberNoSkips(ys, 0);
      } else {
        NewNumberNoSkips(ys, if x.Open? then m - 1 else m);
      }
    }
  }

  /** In the flattened form of a tree the new node gets the number that the child has in the tree. */
  lemma NewNumberIs(xs: seq<Item>, n: Node, m: nat)
    requires IsTree(xs, n) && m < Count(n)
    ensures NewNumber(xs, m) == ChildNumber(n, m)
  {
    hide Flat, NewNumber;
    NewNumberNoSkips(xs, m);
    NewNumberFlat(n, m, []);
    assert Flat(n) + [] == Flat(n);
  }
}
