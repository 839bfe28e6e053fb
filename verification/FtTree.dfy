/** Device trees, and what editing one means for its flattened form. */
module FtTree {
  import opened Bits

  datatype Property = Property(name: seq<byte>, data: seq<byte>)

  datatype Node = Node(name: seq<byte>, props: seq<Property>, children: seq<Node>)

  /** A flattened tree: tokens with the names of properties in place of string offsets. */
  datatype Item = Open(name: seq<byte>) | Prop(prop: Property) | Close | Skip

  function FlatProps(props: seq<Property>): seq<Item> {
    if |props| == 0 then [] else [Prop(props[0])] + FlatProps(props[1..])
  }

  function Flat(n: Node): seq<Item>
    decreases n, 0
  {
    [Open(n.name)] + FlatProps(n.props) + FlatAll(n.children) + [Close]
  }

  function FlatAll(ns: seq<Node>): seq<Item>
    decreases ns, 1
  {
    if |ns| == 0 then [] else Flat(ns[0]) + FlatAll(ns[1..])
  }

  /** The number of nodes. */
  function Count(n: Node): nat
    decreases n, 0
  {
    1 + CountAll(n.children)
  }

  function CountAll(ns: seq<Node>): nat
    decreases ns, 1
  {
    if |ns| == 0 then 0 else Count(ns[0]) + CountAll(ns[1..])
  }

  /** A flattened node starts with its name, then come its properties and then its children, each in order. */
  lemma FlatOrder(n: Node, i: nat)
    ensures |Flat(n)| >= |n.props| + 2 && Flat(n)[0] == Open(n.name) && Flat(n)[|Flat(n)| - 1] == Close
    ensures i < |n.props| ==> Flat(n)[1 + i] == Prop(n.props[i])
    ensures Flat(n)[1 + |n.props|..|Flat(n)| - 1] == FlatAll(n.children)
    ensures i < |n.children| ==> FlatAll(n.children) == FlatAll(n.children[..i]) + Flat(n.children[i]) + FlatAll(n.children[i + 1..])
  {
    hide Flat, FlatProps, FlatAll;
    FlatPropsAt(n.props, i);
    if i < |n.children| { FlatAllAt(n.children, i); }
    FlatIs(n);
    FourParts([Open(n.name)], FlatProps(n.props), FlatAll(n.children), [Close]);
  }

  lemma FlatIs(n: Node)
    ensures Flat(n) == [Open(n.name)] + FlatProps(n.props) + FlatAll(n.children) + [Close]
  {
  }

  lemma FourParts(a: seq<Item>, b: seq<Item>, c: seq<Item>, d: seq<Item>)
    requires |a| == |d| == 1
    ensures var x := a + b + c + d;
            && |x| == |b| + |c| + 2 && x[0] == a[0] && x[|x| - 1] == d[0]
            && (forall i :: 0 <= i < |b| ==> x[1 + i] == b[i]) && x[1 + |b|..|x| - 1] == c
  {
  }

  lemma {:induction false} FlatPropsAt(props: seq<Property>, i: nat)
    ensures |FlatProps(props)| == |props|
    ensures i < |props| ==> FlatProps(props)[i] == Prop(props[i])
  {
    if |props| > 0 { FlatPropsAt(props[1..], if i > 0 then i - 1 else 0); }
  }

  lemma {:induction false} FlatAllAt(ns: seq<Node>, i: nat)
    requires i < |ns|
    ensures FlatAll(ns) == FlatAll(ns[..i]) + Flat(ns[i]) + FlatAll(ns[i + 1..])
    decreases |ns|
  {
    hide Flat;
    if i > 0 {
      FlatAllAt(ns[1..], i - 1);
      assert ns[..i][0] == ns[0] && ns[..i][1..] == ns[1..][..i - 1] && ns[1..][i..] == ns[i + 1..];
      assert FlatAll(ns[..i]) == Flat(ns[0]) + FlatAll(ns[1..][..i - 1]);
    } else {
      assert ns[..0] == [];
      assert FlatAll(ns[..0]) == [];
    }
  }

  // ----- Editing a tree.  Nodes are numbered in preorder.

  /** The first property of that name replaced, or a new one added after the others. */
  function SetProps(props: seq<Property>, p: Property): seq<Property> {
    if |props| == 0 then [p]
    else if props[0].name == p.name then [p] + props[1..]
    else [props[0]] + SetProps(props[1..], p)
  }

  /** That is at the place of the first property of that name, or at the end. */
  lemma {:induction false} SetPropsIs(props: seq<Property>, p: Property, i: nat)
    requires i <= |props| && (forall j :: 0 <= j < i ==> props[j].name != p.name)
    requires i < |props| ==> props[i].name == p.name
    ensures SetProps(props, p) == if i < |props| then props[i := p] else props + [p]
    decreases |props|
  {
    if i > 0 {
      var more := props[1..];
      forall j | 0 <= j < i - 1 ensures more[j].name != p.name { assert more[j] == props[j + 1]; }
      SetPropsIs(more, p, i - 1);
      assert props == [props[0]] + more;
      if i < |props| { assert props[i := p] == [props[0]] + more[i - 1 := p]; }
    } else if |props| > 0 {
      assert props[0 := p] == [p] + props[1..];
    }
  }

  /** The tree with a property of node number `m` set. */
  function SetPropAt(n: Node, m: nat, p: Property): Node
    decreases n, 0
  {
    if m == 0 then n.(props := SetProps(n.props, p)) else n.(children := SetPropAll(n.children, m - 1, p))
  }

  function SetPropAll(ns: seq<Node>, m: nat, p: Property): seq<Node>
    decreases ns, 1
  {
    if |ns| == 0 then []
    else if m < Count(ns[0]) then [SetPropAt(ns[0], m, p)] + ns[1..]
    else [ns[0]] + SetPropAll(ns[1..], m - Count(ns[0]), p)
  }

  /** The tree with a new last child of node number `m`. */
  function AddChildAt(n: Node, m: nat, c: Node): Node
    decreases n, 0
  {
    if m == 0 then n.(children := n.children + [c]) else n.(children := AddChildAll(n.children, m - 1, c))
  }

  function AddChildAll(ns: seq<Node>, m: nat, c: Node): seq<Node>
    decreases ns, 1
  {
    if |ns| == 0 then []
    else if m < Count(ns[0]) then [AddChildAt(ns[0], m, c)] + ns[1..]
    else [ns[0]] + AddChildAll(ns[1..], m - Count(ns[0]), c)
  }

  // ----- Editing the flattened form

  /** Set a property in what follows the start of a node. */
  function SetItems(xs: seq<Item>, p: Property): seq<Item> {
    if |xs| == 0 then []
    else if xs[0].Open? || xs[0].Close? then [Prop(p)] + xs
    else if xs[0].Prop? && xs[0].prop.name == p.name then [Prop(p)] + xs[1..]
    else [xs[0]] + SetItems(xs[1..], p)
  }

  /** Set a property of the `m`-th node that starts in `xs`. */
  function SetItemsAt(xs: seq<Item>, m: nat, p: Property): seq<Item> {
    if |xs| == 0 then []
    else if xs[0].Open? then
      if m == 0 then [xs[0]] + SetItems(xs[1..], p) else [xs[0]] + SetItemsAt(xs[1..], m - 1, p)
    else [xs[0]] + SetItemsAt(xs[1..], m, p)
  }

  /** Add `c` before the end of the node that is `depth` levels up. */
  function AddItems(xs: seq<Item>, depth: nat, c: seq<Item>): seq<Item> {
    if |xs| == 0 then []
    else if xs[0].Close? then
      if depth == 0 then c + xs else [xs[0]] + AddItems(xs[1..], depth - 1, c)
    else [xs[0]] + AddItems(xs[1..], if xs[0].Open? then depth + 1 else depth, c)
  }

  function AddItemsAt(xs: seq<Item>, m: nat, c: seq<Item>): seq<Item> {
    if |xs| == 0 then []
    else if xs[0].Open? then
      if m == 0 then [xs[0]] + AddItems(xs[1..], 0, c) else [xs[0]] + AddItemsAt(xs[1..], m - 1, c)
    else [xs[0]] + AddItemsAt(xs[1..], m, c)
  }

  // ----- The two agree

  lemma Cons(x: Item, xs: seq<Item>, rest: seq<Item>)
    ensures ([x] + xs + rest)[0] == x && ([x] + xs + rest)[1..] == xs + rest
  {
  }

  /** Setting a property in a flattened node's properties. */
  lemma {:induction false} SetItemsFlat(props: seq<Property>, p: Property, rest: seq<Item>)
    requires |rest| > 0 && (rest[0].Open? || rest[0].Close?)
    ensures SetItems(FlatProps(props) + rest, p) == FlatProps(SetProps(props, p)) + rest
  {
    hide FlatProps;
    FlatPropsIs(props);
    if |props| == 0 {
      assert FlatProps(props) + rest == rest;
      FlatPropsCons(p, []);
      FlatPropsIs([]);
      assert [p] + [] == [p];
    } else {
      var q, more := props[0], FlatProps(props[1..]);
      Cons(Prop(q), more, rest);
      if q.name == p.name {
        FlatPropsCons(p, props[1..]);
        Assoc([Prop(p)], more, rest);
      } else {
        SetItemsFlat(props[1..], p, rest);
        FlatPropsCons(q, SetProps(props[1..], p));
        Assoc([Prop(q)], FlatProps(SetProps(props[1..], p)), rest);
      }
    }
  }

  lemma Assoc(a: seq<Item>, b: seq<Item>, c: seq<Item>)
    ensures a + b + c == a + (b + c)
  {
  }

  lemma FlatPropsIs(props: seq<Property>)
    ensures FlatProps(props) == if |props| == 0 then [] else [Prop(props[0])] + FlatProps(props[1..])
  {
  }

  lemma FlatPropsCons(q: Property, props: seq<Property>)
    ensures FlatProps([q] + props) == [Prop(q)] + FlatProps(props)
  {
    assert ([q] + props)[1..] == props;
  }

  lemma FlatAllNone()
    ensures FlatAll([]) == []
  {
  }

  lemma FlatAllCons(n: Node, ns: seq<Node>)
    ensures FlatAll([n] + ns) == Flat(n) + FlatAll(ns)
  {
    assert ([n] + ns)[1..] == ns;
  }

  /** What follows a node's properties starts with a child or the node's end. */
  lemma AfterProps(ns: seq<Node>, rest: seq<Item>)
    ensures var xs := FlatAll(ns) + ([Close] + rest); |xs| > 0 && (xs[0].Open? || xs[0].Close?)
  {
    if |ns| > 0 { assert Flat(ns[0])[0] == Open(ns[0].name); }
  }

  /** A flattened node, taken apart before some rest. */
  lemma FlatParts(n: Node, rest: seq<Item>)
    ensures Flat(n) + rest == [Open(n.name)] + (FlatProps(n.props) + (FlatAll(n.children) + ([Close] + rest)))
  {
  }

  /** No node starts among properties. */
  lemma {:induction false} SkipProps(props: seq<Property>, rest: seq<Item>, m: nat, p: Property)
    ensures SetItemsAt(FlatProps(props) + rest, m, p) == FlatProps(props) + SetItemsAt(rest, m, p)
  {
    if |props| == 0 {
      assert FlatProps(props) + rest == rest;
    } else {
      Cons(Prop(props[0]), FlatProps(props[1..]), rest);
      SkipProps(props[1..], rest, m, p);
    }
  }

  /** Setting a property of a node in the tree is setting it in the flattened form. */
  lemma {:induction false} SetPropFlat(n: Node, m: nat, p: Property, rest: seq<Item>)
    ensures SetItemsAt(Flat(n) + rest, m, p) ==
            if m < Count(n) then Flat(SetPropAt(n, m, p)) + rest else Flat(n) + SetItemsAt(rest, m - Count(n), p)
    decreases n, 0
  {
    FlatParts(n, rest);
    var tail := [Close] + rest;
    var xs := FlatProps(n.props) + (FlatAll(n.children) + tail);
    assert ([Open(n.name)] + xs)[1..] == xs;
    if m == 0 {
      AfterProps(n.children, rest);
      SetItemsFlat(n.props, p, FlatAll(n.children) + tail);
      FlatParts(n.(props := SetProps(n.props, p)), rest);
    } else {
      SkipProps(n.props, FlatAll(n.children) + tail, m - 1, p);
      SetPropFlatAll(n.children, m - 1, p, tail);
      if m < Count(n) {
        FlatParts(n.(children := SetPropAll(n.children, m - 1, p)), rest);
      } else {
        assert tail[1..] == rest;
        FlatParts(n, SetItemsAt(rest, m - Count(n), p));
      }
    }
  }

  lemma {:induction false} SetPropFlatAll(ns: seq<Node>, m: nat, p: Property, rest: seq<Item>)
    ensures SetItemsAt(FlatAll(ns) + rest, m, p) ==
            if m < CountAll(ns) then FlatAll(SetPropAll(ns, m, p)) + rest else FlatAll(ns) + SetItemsAt(rest, m - CountAll(ns), p)
    decreases ns, 1
  {
    hide Flat, FlatAll, Count, SetItemsAt, SetPropAt;
    if |ns| == 0 {
      FlatAllNone();
      assert FlatAll(ns) + rest == rest;
    } else {
      var n, others := ns[0], ns[1..];
      assert ns == [n] + others;
      FlatAllCons(n, others);
      Assoc(Flat(n), FlatAll(others), rest);
      SetPropFlat(n, m, p, FlatAll(others) + rest);
      if m < Count(n) {
        FlatAllCons(SetPropAt(n, m, p), others);
        Assoc(Flat(SetPropAt(n, m, p)), FlatAll(others), rest);
      } else {
        var k := m - Count(n);
        SetPropFlatAll(others, k, p, rest);
        FlatAllCons(n, SetPropAll(others, k, p));
        Assoc(Flat(n), FlatAll(SetPropAll(others, k, p)), rest);
        if k >= CountAll(others) { Assoc(Flat(n), FlatAll(others), SetItemsAt(rest, k - CountAll(others), p)); }
      }
    }
  }

  /** A whole node is passed over when looking for the end of the one around it. */
  lemma {:induction false} PassNode(n: Node, depth: nat, c: seq<Item>, rest: seq<Item>)
    ensures AddItems(Flat(n) + rest, depth, c) == Flat(n) + AddItems(rest, depth, c)
    decreases n, 0
  {
    FlatParts(n, rest);
    var tail := [Close] + rest;
    var xs := FlatProps(n.props) + (FlatAll(n.children) + tail);
    assert ([Open(n.name)] + xs)[1..] == xs;
    PassProps(n.props, depth + 1, c, FlatAll(n.children) + tail);
    PassNodes(n.children, depth + 1, c, tail);
    assert tail[1..] == rest;
    FlatParts(n, AddItems(rest, depth, c));
  }

  lemma {:induction false} PassNodes(ns: seq<Node>, depth: nat, c: seq<Item>, rest: seq<Item>)
    ensures AddItems(FlatAll(ns) + rest, depth, c) == FlatAll(ns) + AddItems(rest, depth, c)
    decreases ns, 1
  {
    hide Flat, FlatAll, AddItems;
    if |ns| == 0 {
      FlatAllNone();
      assert FlatAll(ns) + rest == rest;
    } else {
      var n, others := ns[0], ns[1..];
      assert ns == [n] + others;
      FlatAllCons(n, others);
      Assoc(Flat(n), FlatAll(others), rest);
      PassNode(n, depth, c, FlatAll(others) + rest);
      PassNodes(others, depth, c, rest);
      Assoc(Flat(n), FlatAll(others), AddItems(rest, depth, c));
    }
  }

  lemma {:induction false} PassProps(props: seq<Property>, depth: nat, c: seq<Item>, rest: seq<Item>)
    ensures AddItems(FlatProps(props) + rest, depth, c) == FlatProps(props) + AddItems(rest, depth, c)
  {
    if |props| == 0 {
      assert FlatProps(props) + rest == rest;
    } else {
      Cons(Prop(props[0]), FlatProps(props[1..]), rest);
      PassProps(props[1..], depth, c, rest);
    }
  }

  lemma {:induction false} AddSkipProps(props: seq<Property>, rest: seq<Item>, m: nat, c: seq<Item>)
    ensures AddItemsAt(FlatProps(props) + rest, m, c) == FlatProps(props) + AddItemsAt(rest, m, c)
  {
    if |props| == 0 {
      assert FlatProps(props) + rest == rest;
    } else {
      Cons(Prop(props[0]), FlatProps(props[1..]), rest);
      AddSkipProps(props[1..], rest, m, c);
    }
  }

  lemma {:induction false} FlatAllConcat(a: seq<Node>, b: seq<Node>)
    ensures FlatAll(a + b) == FlatAll(a) + FlatAll(b)
  {
    if |a| == 0 {
      assert a + b == b;
    } else {
      assert (a + b)[0] == a[0] && (a + b)[1..] == a[1..] + b;
      FlatAllConcat(a[1..], b);
    }
  }

  /** Adding a last child to a node in the tree is adding it in the flattened form, before the
    * node's end. */
  lemma {:induction false} AddChildFlat(n: Node, m: nat, child: Node, rest: seq<Item>)
    ensures AddItemsAt(Flat(n) + rest, m, Flat(child)) ==
            if m < Count(n) then Flat(AddChildAt(n, m, child)) + rest else Flat(n) + AddItemsAt(rest, m - Count(n), Flat(child))
    decreases n, 0
  {
    FlatParts(n, rest);
    var tail, c := [Close] + rest, Flat(child);
    var xs := FlatProps(n.props) + (FlatAll(n.children) + tail);
    assert ([Open(n.name)] + xs)[1..] == xs;
    if m == 0 {
      PassProps(n.props, 0, c, FlatAll(n.children) + tail);
      PassNodes(n.children, 0, c, tail);
      FlatAllConcat(n.children, [child]);
      assert FlatAll([child]) == c;
      Assoc(FlatAll(n.children), c, tail);
      FlatParts(n.(children := n.children + [child]), rest);
    } else {
      AddSkipProps(n.props, FlatAll(n.children) + tail, m - 1, c);
      AddChildFlatAll(n.children, m - 1, child, tail);
      if m < Count(n) {
        FlatParts(n.(children := AddChildAll(n.children, m - 1, child)), rest);
      } else {
        assert tail[1..] == rest;
        FlatParts(n, AddItemsAt(rest, m - Count(n), c));
      }
    }
  }

  lemma {:induction false} AddChildFlatAll(ns: seq<Node>, m: nat, child: Node, rest: seq<Item>)
    ensures AddItemsAt(FlatAll(ns) + rest, m, Flat(child)) ==
            if m < CountAll(ns) then FlatAll(AddChildAll(ns, m, child)) + rest
            else FlatAll(ns) + AddItemsAt(rest, m - CountAll(ns), Flat(child))
    decreases ns, 1
  {
    hide Flat, FlatAll, Count, AddItemsAt, AddChildAt;
    var c := Flat(child);
    if |ns| == 0 {
      FlatAllNone();
      assert FlatAll(ns) + rest == rest;
    } else {
      var n, others := ns[0], ns[1..];
      assert ns == [n] + others;
      FlatAllCons(n, others);
      Assoc(Flat(n), FlatAll(others), rest);
      AddChildFlat(n, m, child, FlatAll(others) + rest);
      if m < Count(n) {
        FlatAllCons(AddChildAt(n, m, child), others);
        Assoc(Flat(AddChildAt(n, m, child)), FlatAll(others), rest);
      } else {
        var k := m - Count(n);
        AddChildFlatAll(others, k, child, rest);
        FlatAllCons(n, AddChildAll(others, k, child));
        Assoc(Flat(n), FlatAll(AddChildAll(others, k, child)), rest);
        if k >= CountAll(others) { Assoc(Flat(n), FlatAll(others), AddItemsAt(rest, k - CountAll(others), c)); }
      }
    }
  }

  // ----- Ignoring what stands for nothing

  function NoSkips(xs: seq<Item>): seq<Item> {
    if |xs| == 0 then []
    else if xs[0].Skip? then NoSkips(xs[1..])
    else [xs[0]] + NoSkips(xs[1..])
  }

  lemma {:induction false} NoSkipsConcat(a: seq<Item>, b: seq<Item>)
    ensures NoSkips(a + b) == NoSkips(a) + NoSkips(b)
  {
    if |a| == 0 {
      assert a + b == b;
    } else {
      assert (a + b)[0] == a[0] && (a + b)[1..] == a[1..] + b;
      NoSkipsConcat(a[1..], b);
    }
  }

  lemma NoSkipsCons(x: Item, xs: seq<Item>)
    ensures NoSkips([x] + xs) == if x.Skip? then NoSkips(xs) else [x] + NoSkips(xs)
  {
    assert ([x] + xs)[1..] == xs;
  }

  lemma NoSkipsTail(x: Item, xs: seq<Item>)
    ensures ([x] + NoSkips(xs))[0] == x && ([x] + NoSkips(xs))[1..] == NoSkips(xs)
  {
  }

  lemma {:induction false} SetItemsNoSkips(xs: seq<Item>, p: Property)
    ensures NoSkips(SetItems(xs, p)) == SetItems(NoSkips(xs), p)
  {
    if |xs| > 0 {
      var x, ys := xs[0], xs[1..];
      assert xs == [x] + ys;
      NoSkipsTail(x, ys);
      if x.Open? || x.Close? {
        NoSkipsCons(Prop(p), xs);
      } else if x.Prop? && x.prop.name == p.name {
        NoSkipsCons(Prop(p), ys);
      } else {
        SetItemsNoSkips(ys, p);
        NoSkipsCons(x, SetItems(ys, p));
      }
    }
  }

  lemma {:induction false} SetItemsAtNoSkips(xs: seq<Item>, m: nat, p: Property)
    ensures NoSkips(SetItemsAt(xs, m, p)) == SetItemsAt(NoSkips(xs), m, p)
  {
    if |xs| > 0 {
      var x, ys := xs[0], xs[1..];
      assert xs == [x] + ys;
      NoSkipsTail(x, ys);
      if x.Open? && m == 0 {
        SetItemsNoSkips(ys, p);
        NoSkipsCons(x, SetItems(ys, p));
      } else {
        var k := if x.Open? then m - 1 else m;
        SetItemsAtNoSkips(ys, k, p);
        NoSkipsCons(x, SetItemsAt(ys, k, p));
      }
    }
  }

  lemma {:induction false} AddItemsNoSkips(xs: seq<Item>, depth: nat, c: seq<Item>)
    requires NoSkips(c) == c
    ensures NoSkips(AddItems(xs, depth, c)) == AddItems(NoSkips(xs), depth, c)
  {
    if |xs| > 0 {
      var x, ys := xs[0], xs[1..];
      assert xs == [x] + ys;
      NoSkipsTail(x, ys);
      if x.Close? && depth == 0 {
        NoSkipsConcat(c, xs);
      } else {
        var d := if x.Close? then depth - 1 else if x.Open? then depth + 1 else depth;
        AddItemsNoSkips(ys, d, c);
        NoSkipsCons(x, AddItems(ys, d, c));
      }
    }
  }

  lemma {:induction false} AddItemsAtNoSkips(xs: seq<Item>, m: nat, c: seq<Item>)
    requires NoSkips(c) == c
    ensures NoSkips(AddItemsAt(xs, m, c)) == AddItemsAt(NoSkips(xs), m, c)
  {
    if |xs| > 0 {
      var x, ys := xs[0], xs[1..];
      assert xs == [x] + ys;
      NoSkipsTail(x, ys);
      if x.Open? && m == 0 {
        AddItemsNoSkips(ys, 0, c);
        NoSkipsCons(x, AddItems(ys, 0, c));
      } else {
        var k := if x.Open? then m - 1 else m;
        AddItemsAtNoSkips(ys, k, c);
        NoSkipsCons(x, AddItemsAt(ys, k, c));
      }
    }
  }

  // ----- Where a new node goes

  /** The nodes that start before the end of the node that is `depth` levels up. */
  function EndNumber(xs: seq<Item>, depth: nat): nat {
    if |xs| == 0 then 0
    else if xs[0].Close? then (if depth == 0 then 0 else EndNumber(xs[1..], depth - 1))
    else if xs[0].Open? then 1 + EndNumber(xs[1..], depth + 1)
    else EndNumber(xs[1..], depth)
  }

  /** The number that a node added to the `m`-th node that starts in `xs` gets. */
  function NewNumber(xs: seq<Item>, m: nat): nat {
    if |xs| == 0 then 0
    else if xs[0].Open? then 1 + (if m == 0 then EndNumber(xs[1..], 0) else NewNumber(xs[1..], m - 1))
    else NewNumber(xs[1..], m)
  }

  // ----- Main results

  /** `xs` is the flattened form of a tree, apart from what stands for nothing. */
  ghost predicate IsTree(xs: seq<Item>, n: Node) {
    NoSkips(xs) == Flat(n)
  }

  /** Setting a property in the flattened form is setting it in the tree, and changes nothing else
    * there. */
  lemma SetPropRefines(xs: seq<Item>, n: Node, m: nat, p: Property)
    requires IsTree(xs, n) && m < Count(n)
    ensures IsTree(SetItemsAt(xs, m, p), SetPropAt(n, m, p))
  {
    SetItemsAtNoSkips(xs, m, p);
    SetPropFlat(n, m, p, []);
    assert Flat(n) + [] == Flat(n);
    assert Flat(SetPropAt(n, m, p)) + [] == Flat(SetPropAt(n, m, p));
  }

  /** Adding an empty node before the end of another is giving that a new last child. */
  lemma AddChildRefines(xs: seq<Item>, n: Node, m: nat, name: seq<byte>)
    requires IsTree(xs, n) && m < Count(n)
    ensures IsTree(AddItemsAt(xs, m, [Open(name), Close]), AddChildAt(n, m, Node(name, [], [])))
  {
    var child := Node(name, [], []);
    var c := [Open(name), Close];
    assert Flat(child) == c;
    assert c == [Open(name)] + [Close];
    NoSkipsCons(Open(name), [Close]);
    assert NoSkips(c) == c;
    AddItemsAtNoSkips(xs, m, c);
    AddChildFlat(n, m, child, []);
    assert Flat(n) + [] == Flat(n);
    assert Flat(AddChildAt(n, m, child)) + [] == Flat(AddChildAt(n, m, child));
  }
}
