/** The S+tree of a ReiserFS file system as a function from block numbers to nodes, its leaves
  * in order, and paths from the root to a leaf.
  *
  * Levels count from the leaves (level 1) up.  A leaf's keys are those of its items.  An inner
  * node has one more child than keys.
  */
module ReiserTree {

  datatype Key = Key(dir: nat, obj: nat, offset: nat, uniq: nat)

  datatype Node = Node(level: nat, keys: seq<Key>, children: seq<nat>)

  /** Where an item is: a leaf's block number and the item's number there. */
  datatype Place = Place(block: nat, item: nat)

  type Disk = nat -> Node

  const LEAF_LEVEL: nat := 1

  /** The subtree of height `d` at block `b` is well formed.  Block 0 is never part of a tree. */
  ghost predicate Wf(disk: Disk, b: nat, d: nat)
    decreases d
  {
    var n := disk(b);
    && b != 0 && d >= LEAF_LEVEL && n.level == d
    && if d == LEAF_LEVEL then |n.keys| > 0
       else
         && |n.children| == |n.keys| + 1
         && forall i :: 0 <= i < |n.children| ==> Wf(disk, n.children[i], d - 1)
  }

  /** A well-formed node by itself. */
  ghost predicate NodeOK(disk: Disk, b: nat, d: nat) {
    var n := disk(b);
    && b != 0 && n.level == d
    && (if d == LEAF_LEVEL then |n.keys| > 0 else |n.children| == |n.keys| + 1)
    && (d > LEAF_LEVEL ==> forall i :: 0 <= i < |n.children| ==> n.children[i] != 0 && disk(n.children[i]).level == d - 1)
  }

  /** The leaves below block `b`, from left to right. */
  function Leaves(disk: Disk, b: nat, d: nat): seq<nat>
    decreases d, 1, 0
  {
    if d <= LEAF_LEVEL then [b] else LeavesFrom(disk, b, d, 0)
  }

  /** Those below its children from number `i` on. */
  function LeavesFrom(disk: Disk, b: nat, d: nat, i: nat): seq<nat>
    requires d > LEAF_LEVEL
    decreases d, 0, |disk(b).children| - i
  {
    var children := disk(b).children;
    if i >= |children| then [] else Leaves(disk, children[i], d - 1) + LeavesFrom(disk, b, d, i + 1)
  }

  /** The items of a list of leaves, in order. */
  function Items(disk: Disk, leaves: seq<nat>): seq<Place> {
    if |leaves| == 0 then [] else ItemsFrom(disk, leaves[0], 0) + Items(disk, leaves[1..])
  }

  /** The items of one leaf, from number `k` on. */
  function ItemsFrom(disk: Disk, b: nat, k: nat): (r: seq<Place>)
    ensures |r| == if k <= |disk(b).keys| then |disk(b).keys| - k else 0
    ensures forall i :: 0 <= i < |r| ==> r[i] == Place(b, k + i)
    decreases |disk(b).keys| - k
  {
    if k >= |disk(b).keys| then [] else [Place(b, k)] + ItemsFrom(disk, b, k + 1)
  }

  lemma {:induction false} ItemsConcat(disk: Disk, a: seq<nat>, b: seq<nat>)
    ensures Items(disk, a + b) == Items(disk, a) + Items(disk, b)
  {
    if |a| == 0 {
      assert a + b == b;
    } else {
      assert (a + b)[0] == a[0] && (a + b)[1..] == a[1..] + b;
      ItemsConcat(disk, a[1..], b);
    }
  }

  /** The items of leaf `b` among those of all leaves. */
  lemma ItemsAround(disk: Disk, left: seq<nat>, b: nat, right: seq<nat>, k: nat)
    requires k < |disk(b).keys|
    ensures Items(disk, left + [b] + right) ==
            Items(disk, left) + ItemsFrom(disk, b, 0)[..k] + [Place(b, k)] + (ItemsFrom(disk, b, k + 1) + Items(disk, right))
  {
    var own := ItemsFrom(disk, b, 0);
    assert own == own[..k] + [Place(b, k)] + ItemsFrom(disk, b, k + 1);
    hide ItemsFrom;
    ItemsConcat(disk, left + [b], right);
    ItemsConcat(disk, left, [b]);
    OneLeaf(disk, b);
    var l, x, y, r := Items(disk, left), own[..k], ItemsFrom(disk, b, k + 1), Items(disk, right);
    Regroup(l, x, [Place(b, k)], y, r);
  }

  lemma OneLeaf(disk: Disk, b: nat)
    ensures Items(disk, [b]) == ItemsFrom(disk, b, 0)
  {
    assert [b][1..] == [];
  }

  lemma Regroup(l: seq<Place>, x: seq<Place>, p: seq<Place>, y: seq<Place>, r: seq<Place>)
    ensures l + (x + p + y) + r == l + x + p + (y + r)
  {
  }

  // ----- Paths

  /** `B[d]` is the node at level `d` on a path from the root, `P[d]` the number of the child
    * taken there, down to level `low`. */
  ghost predicate PathDown(disk: Disk, depth: nat, low: nat, B: seq<nat>, P: seq<nat>) {
    && depth < |B| && depth < |P|
    && forall d :: low < d <= depth ==>
         P[d] < |disk(B[d]).children| && B[d - 1] == disk(B[d]).children[P[d]]
  }

  ghost predicate OnPath(disk: Disk, depth: nat, B: seq<nat>, P: seq<nat>) {
    PathDown(disk, depth, LEAF_LEVEL, B, P)
  }

  /** The leaves to the right of the path, below the path's node at level `d`. */
  ghost function After(disk: Disk, B: seq<nat>, P: seq<nat>, d: nat): seq<nat>
    requires d < |B| && d < |P|
  {
    if d <= LEAF_LEVEL then [] else After(disk, B, P, d - 1) + LeavesFrom(disk, B[d], d, P[d] + 1)
  }

  /** The leaves to the left of it. */
  ghost function Before(disk: Disk, B: seq<nat>, P: seq<nat>, d: nat): seq<nat>
    requires d < |B| && d < |P|
  {
    if d <= LEAF_LEVEL then [] else LeavesTo(disk, B[d], d, P[d]) + Before(disk, B, P, d - 1)
  }

  /** The leaves below the children before number `i`. */
  function LeavesTo(disk: Disk, b: nat, d: nat, i: nat): seq<nat>
    requires d > LEAF_LEVEL
  {
    if i == 0 || i > |disk(b).children| then [] else LeavesTo(disk, b, d, i - 1) + Leaves(disk, disk(b).children[i - 1], d - 1)
  }

  lemma {:induction false} LeavesSplit(disk: Disk, b: nat, d: nat, i: nat)
    requires d > LEAF_LEVEL && i <= |disk(b).children|
    ensures Leaves(disk, b, d) == LeavesTo(disk, b, d, i) + LeavesFrom(disk, b, d, i)
  {
    if i > 0 { LeavesSplit(disk, b, d, i - 1); }
  }

  /** A path splits the leaves into those before it, its own leaf, and those after it. */
  lemma {:induction false} PathSplits(disk: Disk, depth: nat, B: seq<nat>, P: seq<nat>, d: nat)
    requires OnPath(disk, depth, B, P) && LEAF_LEVEL <= d <= depth
    ensures Leaves(disk, B[d], d) == Before(disk, B, P, d) + [B[LEAF_LEVEL]] + After(disk, B, P, d)
  {
    hide LeavesTo;
    if d > LEAF_LEVEL {
      PathSplits(disk, depth, B, P, d - 1);
      LeavesSplit(disk, B[d], d, P[d]);
      var left, right := LeavesTo(disk, B[d], d, P[d]), LeavesFrom(disk, B[d], d, P[d] + 1);
      var b, a := Before(disk, B, P, d - 1), After(disk, B, P, d - 1);
      assert left + (b + [B[LEAF_LEVEL]] + a + right) == left + b + [B[LEAF_LEVEL]] + (a + right);
    }
  }

  /** A path that always takes the last child has no leaves after it. */
  lemma {:induction false} AfterLast(disk: Disk, B: seq<nat>, P: seq<nat>, d: nat)
    requires d < |B| && d < |P|
    requires forall e :: LEAF_LEVEL < e <= d ==> P[e] + 1 >= |disk(B[e]).children|
    ensures After(disk, B, P, d) == []
  {
    hide Leaves;
    if d > LEAF_LEVEL {
      AfterLast(disk, B, P, d - 1);
      assert LeavesFrom(disk, B[d], d, P[d] + 1) == [];
    }
  }

  /** A path that always takes the first child has all other leaves after it. */
  lemma {:induction false} AfterFirst(disk: Disk, depth: nat, B: seq<nat>, P: seq<nat>, d: nat)
    requires OnPath(disk, depth, B, P) && LEAF_LEVEL <= d <= depth
    requires forall e :: LEAF_LEVEL < e <= d ==> P[e] == 0
    ensures Leaves(disk, B[d], d) == [B[LEAF_LEVEL]] + After(disk, B, P, d)
  {
    if d > LEAF_LEVEL { AfterFirst(disk, depth, B, P, d - 1); }
  }

  /** Advancing at level `e`, where all levels below were at their last child, and taking first
    * children below: the next leaf is the first of those after the old path. */
  lemma {:induction false} Advance(disk: Disk, depth: nat, B: seq<nat>, P: seq<nat>, B': seq<nat>, P': seq<nat>, e: nat, d: nat)
    requires OnPath(disk, depth, B, P) && OnPath(disk, depth, B', P')
    requires LEAF_LEVEL < e <= d <= depth && P'[e] == P[e] + 1
    requires forall i :: e <= i <= depth ==> B'[i] == B[i]
    requires forall i :: e < i <= depth ==> P'[i] == P[i]
    requires forall i :: LEAF_LEVEL < i < e ==> P[i] + 1 >= |disk(B[i]).children| && P'[i] == 0
    ensures After(disk, B, P, d) == [B'[LEAF_LEVEL]] + After(disk, B', P', d)
  {
    hide After, Leaves, LeavesFrom;
    AfterIs(disk, B, P, d);
    AfterIs(disk, B', P', d);
    if d > e {
      Advance(disk, depth, B, P, B', P', e, d - 1);
    } else {
      AfterLast(disk, B, P, e - 1);
      AfterFirst(disk, depth, B', P', e - 1);
      assert B'[e - 1] == disk(B[e]).children[P[e] + 1];
      LeavesFromIs(disk, B[e], e, P[e] + 1);
    }
  }

  lemma AfterIs(disk: Disk, B: seq<nat>, P: seq<nat>, d: nat)
    requires LEAF_LEVEL < d < |B| && d < |P|
    ensures After(disk, B, P, d) == After(disk, B, P, d - 1) + LeavesFrom(disk, B[d], d, P[d] + 1)
  {
  }

  lemma LeavesFromIs(disk: Disk, b: nat, d: nat, i: nat)
    requires d > LEAF_LEVEL && i < |disk(b).children|
    ensures LeavesFrom(disk, b, d, i) == Leaves(disk, disk(b).children[i], d - 1) + LeavesFrom(disk, b, d, i + 1)
  {
  }

  /** One level further down. */
  lemma Extend(disk: Disk, depth: nat, low: nat, B: seq<nat>, P: seq<nat>, i: nat)
    requires PathDown(disk, depth, low, B, P) && LEAF_LEVEL < low <= depth && i < |disk(B[low]).children|
    ensures PathDown(disk, depth, low - 1, B[low - 1 := disk(B[low]).children[i]], P[low := i])
  {
  }

  lemma PathEnds(disk: Disk, depth: nat, low: nat, B: seq<nat>, P: seq<nat>, d: nat)
    requires PathDown(disk, depth, low, B, P) && low <= d
    ensures PathDown(disk, depth, d, B, P)
  {
  }

  /** Every node on a path is well formed. */
  lemma {:induction false} PathWf(disk: Disk, depth: nat, low: nat, B: seq<nat>, P: seq<nat>, d: nat)
    requires PathDown(disk, depth, low, B, P) && LEAF_LEVEL <= low <= d <= depth && Wf(disk, B[depth], depth)
    ensures Wf(disk, B[d], d) && NodeOK(disk, B[d], d)
    decreases depth - d
  {
    if d < depth { PathWf(disk, depth, low, B, P, d + 1); }
    forall i | d > LEAF_LEVEL && 0 <= i < |disk(B[d]).children| ensures Wf(disk, disk(B[d]).children[i], d - 1) { }
  }

  // ----- Order

  /** The order of keys. */
  predicate Less(a: Key, b: Key) {
    || a.dir < b.dir
    || (a.dir == b.dir && (a.obj < b.obj
        || (a.obj == b.obj && (a.offset < b.offset || (a.offset == b.offset && a.uniq < b.uniq)))))
  }

  /** It is decided by the directory first, then by the object, the offset and the type; and it is an order. */
  lemma LessIs(a: Key, b: Key)
    ensures a.dir < b.dir ==> Less(a, b)
    ensures a.dir == b.dir && a.obj < b.obj ==> Less(a, b)
    ensures a.dir == b.dir && a.obj == b.obj && a.offset < b.offset ==> Less(a, b)
    ensures a.dir == b.dir && a.obj == b.obj && a.offset == b.offset && a.uniq < b.uniq ==> Less(a, b)
    ensures !(Less(a, b) && Less(b, a)) && (Less(a, b) || Less(b, a) || a == b)
    ensures forall c :: Less(a, b) && Less(b, c) ==> Less(a, c)
  {
  }

  datatype Bound = None | Some(key: Key)

  predicate AtLeast(k: Key, lo: Bound) { lo.Some? ==> !Less(k, lo.key) }

  predicate Below(k: Key, hi: Bound) { hi.Some? ==> Less(k, hi.key) }

  predicate Increasing(keys: seq<Key>) {
    forall i, j :: 0 <= i < j < |keys| ==> Less(keys[i], keys[j])
  }

  function LowerBound(keys: seq<Key>, lo: Bound, i: nat): Bound {
    if 0 < i <= |keys| then Some(keys[i - 1]) else lo
  }

  function UpperBound(keys: seq<Key>, hi: Bound, i: nat): Bound {
    if i < |keys| then Some(keys[i]) else hi
  }

  /** All keys are in order and within bounds; the keys of an inner node separate its children. */
  ghost predicate Ordered(disk: Disk, b: nat, d: nat, lo: Bound, hi: Bound)
    decreases d
  {
    var n := disk(b);
    && Increasing(n.keys)
    && (forall i :: 0 <= i < |n.keys| ==> AtLeast(n.keys[i], lo) && Below(n.keys[i], hi))
    && (d > LEAF_LEVEL ==>
          forall i :: 0 <= i < |n.children| ==>
            Ordered(disk, n.children[i], d - 1, LowerBound(n.keys, lo, i), UpperBound(n.keys, hi, i)))
  }

  /** The key under which an object's first item, its stat data, is filed. */
  function StatKey(dir: nat, obj: nat): Key { Key(dir, obj, 0, 0) }

  /** A node's key lies behind an object's stat data. */
  predicate Behind(k: Key, dir: nat, obj: nat) {
    k.dir > dir || (k.dir == dir && (k.obj > obj || (k.obj == obj && (k.offset > 0 || k.uniq > 0))))
  }

  lemma BehindIsLess(k: Key, dir: nat, obj: nat)
    ensures Behind(k, dir, obj) <==> Less(StatKey(dir, obj), k)
  {
  }

  /** The object has stat data below block `b`. */
  ghost predicate Has(disk: Disk, b: nat, d: nat, key: Key)
    decreases d
  {
    var n := disk(b);
    if d <= LEAF_LEVEL then exists i :: 0 <= i < |n.keys| && n.keys[i] == key
    else exists i :: 0 <= i < |n.children| && Has(disk, n.children[i], d - 1, key)
  }

  /** What is in an ordered subtree is within its bounds. */
  lemma {:induction false} HasWithin(disk: Disk, b: nat, d: nat, lo: Bound, hi: Bound, key: Key)
    requires Wf(disk, b, d) && Ordered(disk, b, d, lo, hi) && Has(disk, b, d, key)
    ensures AtLeast(key, lo) && Below(key, hi)
    decreases d
  {
    var n := disk(b);
    if d > LEAF_LEVEL {
      var i :| 0 <= i < |n.children| && Has(disk, n.children[i], d - 1, key);
      HasWithin(disk, n.children[i], d - 1, LowerBound(n.keys, lo, i), UpperBound(n.keys, hi, i), key);
      hide Less;
      if i > 0 { NotLessTrans(key, n.keys[i - 1], lo); }
      if i < |n.keys| { LessTrans(key, n.keys[i], hi); }
    }
  }

  lemma NotLessTrans(a: Key, b: Key, lo: Bound)
    requires !Less(a, b) && AtLeast(b, lo)
    ensures AtLeast(a, lo)
  {
  }

  lemma LessTrans(a: Key, b: Key, hi: Bound)
    requires Less(a, b) && Below(b, hi)
    ensures Below(a, hi)
  {
  }

  /** The number of the child to search for an object: that of the first key behind it. */
  ghost predicate Branch(n: Node, dir: nat, obj: nat, i: nat) {
    && i <= |n.keys|
    && (forall j :: 0 <= j < i ==> !Behind(n.keys[j], dir, obj))
    && (i < |n.keys| ==> Behind(n.keys[i], dir, obj))
  }

  /** Only one child's bounds admit the key. */
  lemma RightChild(keys: seq<Key>, lo: Bound, hi: Bound, dir: nat, obj: nat, i: nat, j: nat)
    requires Increasing(keys) && i <= |keys| && j <= |keys|
    requires forall k :: 0 <= k < i ==> !Behind(keys[k], dir, obj)
    requires i < |keys| ==> Behind(keys[i], dir, obj)
    requires AtLeast(StatKey(dir, obj), LowerBound(keys, lo, j)) && Below(StatKey(dir, obj), UpperBound(keys, hi, j))
    ensures i == j
  {
    if j < i {
      BehindIsLess(keys[j], dir, obj);
    } else if i < j {
      BehindIsLess(keys[i], dir, obj);
    }
  }

  /** If an object is below a node, it is below the child its key leads to. */
  lemma {:induction false} SearchStep(disk: Disk, b: nat, d: nat, lo: Bound, hi: Bound, dir: nat, obj: nat, i: nat)
    requires Wf(disk, b, d) && Ordered(disk, b, d, lo, hi) && d > LEAF_LEVEL
    requires Branch(disk(b), dir, obj, i)
    ensures Has(disk, b, d, StatKey(dir, obj)) <==> Has(disk, disk(b).children[i], d - 1, StatKey(dir, obj))
    ensures Ordered(disk, disk(b).children[i], d - 1, LowerBound(disk(b).keys, lo, i), UpperBound(disk(b).keys, hi, i))
  {
    hide Less;
    var n, key := disk(b), StatKey(dir, obj);
    assert Ordered(disk, n.children[i], d - 1, LowerBound(n.keys, lo, i), UpperBound(n.keys, hi, i));
    hide LowerBound, UpperBound;
    if Has(disk, b, d, key) {
      var j :| 0 <= j < |n.children| && Has(disk, n.children[j], d - 1, key);
      HasWithin(disk, n.children[j], d - 1, LowerBound(n.keys, lo, j), UpperBound(n.keys, hi, j), key);
      hide Wf, Ordered;
      RightChild(n.keys, lo, hi, dir, obj, i, j);
    }
  }

  // ----- The keys of all items

  /** The keys of the items in a list of leaves, in order. */
  function KeysOf(disk: Disk, leaves: seq<nat>): seq<Key> {
    if |leaves| == 0 then [] else disk(leaves[0]).keys + KeysOf(disk, leaves[1..])
  }

  lemma {:induction false} KeysConcat(disk: Disk, a: seq<nat>, b: seq<nat>)
    ensures KeysOf(disk, a + b) == KeysOf(disk, a) + KeysOf(disk, b)
  {
    if |a| == 0 {
      assert a + b == b;
    } else {
      assert (a + b)[0] == a[0] && (a + b)[1..] == a[1..] + b;
      KeysConcat(disk, a[1..], b);
    }
  }

  /** They are those of the items, one by one. */
  lemma {:induction false} KeysAre(disk: Disk, leaves: seq<nat>)
    ensures |KeysOf(disk, leaves)| == |Items(disk, leaves)|
    ensures forall i :: 0 <= i < |KeysOf(disk, leaves)| ==>
              var p := Items(disk, leaves)[i]; p.item < |disk(p.block).keys| && KeysOf(disk, leaves)[i] == disk(p.block).keys[p.item]
  {
    if |leaves| > 0 { KeysAre(disk, leaves[1..]); }
  }

  /** The keys below a block are increasing and within bounds. */
  ghost predicate Sorted(keys: seq<Key>, lo: Bound, hi: Bound) {
    Increasing(keys) && forall i :: 0 <= i < |keys| ==> AtLeast(keys[i], lo) && Below(keys[i], hi)
  }

  /** In an ordered tree the items come in the order of their keys. */
  lemma {:induction false} KeysSorted(disk: Disk, b: nat, d: nat, lo: Bound, hi: Bound)
    requires Wf(disk, b, d) && Ordered(disk, b, d, lo, hi)
    ensures Sorted(KeysOf(disk, Leaves(disk, b, d)), lo, hi)
    decreases d, 1, 0
  {
    if d == LEAF_LEVEL {
      assert KeysOf(disk, []) == [];
      assert KeysOf(disk, [b]) == disk(b).keys + [] == disk(b).keys;
    } else {
      KeysSortedFrom(disk, b, d, lo, hi, 0);
    }
  }

  lemma {:induction false} KeysSortedFrom(disk: Disk, b: nat, d: nat, lo: Bound, hi: Bound, i: nat)
    requires Wf(disk, b, d) && Ordered(disk, b, d, lo, hi) && d > LEAF_LEVEL && i <= |disk(b).children|
    ensures i < |disk(b).children| ==> Sorted(KeysOf(disk, LeavesFrom(disk, b, d, i)), LowerBound(disk(b).keys, lo, i), hi)
    decreases d, 0, |disk(b).children| - i
  {
    var n := disk(b);
    if i < |n.children| {
      hide Less, KeysOf, Leaves, LeavesFrom, Sorted;
      assert Ordered(disk, n.children[i], d - 1, LowerBound(n.keys, lo, i), UpperBound(n.keys, hi, i));
      assert Wf(disk, n.children[i], d - 1);
      KeysSorted(disk, n.children[i], d - 1, LowerBound(n.keys, lo, i), UpperBound(n.keys, hi, i));
      KeysSortedFrom(disk, b, d, lo, hi, i + 1);
      LeavesFromIs(disk, b, d, i);
      var first, later := Leaves(disk, n.children[i], d - 1), LeavesFrom(disk, b, d, i + 1);
      KeysConcat(disk, first, later);
      if i + 1 < |n.children| {
        BoundsOf(disk, b, d, lo, hi, i);
        SortedConcat(KeysOf(disk, first), KeysOf(disk, later), LowerBound(n.keys, lo, i), n.keys[i], hi);
      } else {
        NoLeaves(disk, b, d);
        assert first + [] == first;
      }
    }
  }

  lemma NoLeaves(disk: Disk, b: nat, d: nat)
    requires d > LEAF_LEVEL
    ensures LeavesFrom(disk, b, d, |disk(b).children|) == [] && KeysOf(disk, []) == []
  {
  }

  lemma BoundsOf(disk: Disk, b: nat, d: nat, lo: Bound, hi: Bound, i: nat)
    requires Ordered(disk, b, d, lo, hi) && i < |disk(b).keys|
    ensures Below(disk(b).keys[i], hi) && AtLeast(disk(b).keys[i], LowerBound(disk(b).keys, lo, i))
    ensures UpperBound(disk(b).keys, hi, i) == Some(disk(b).keys[i]) == LowerBound(disk(b).keys, lo, i + 1)
  {
    if i > 0 { LessIs(disk(b).keys[i - 1], disk(b).keys[i]); }
  }

  lemma SortedConcat(a: seq<Key>, b: seq<Key>, lo: Bound, mid: Key, hi: Bound)
    requires Sorted(a, lo, Some(mid)) && Sorted(b, Some(mid), hi) && Below(mid, hi) && AtLeast(mid, lo)
    ensures Sorted(a + b, lo, hi)
  {
    var c := a + b;
    forall i | 0 <= i < |c| ensures AtLeast(c[i], lo) && Below(c[i], hi) {
      if i < |a| { LessTrans(c[i], mid, hi); } else { NotLessTrans(c[i], mid, lo); }
    }
    forall i, j | 0 <= i < j < |c| ensures Less(c[i], c[j]) {
      if i < |a| <= j {
        LessIs(c[i], mid);
        LessIs(mid, c[j]);
      }
    }
  }

  /** In numbers: directories do not decrease, and within one directory objects do not. */
  lemma SortedNumbers(keys: seq<Key>, i: nat, j: nat)
    requires Increasing(keys) && i < j < |keys|
    ensures keys[i].dir <= keys[j].dir && (keys[i].dir == keys[j].dir ==> keys[i].obj <= keys[j].obj)
  {
    LessIs(keys[j], keys[i]);
  }

  /** An object has stat data below a block if and only if one of the items there has its key. */
  lemma {:induction false} HasKey(disk: Disk, b: nat, d: nat, key: Key)
    requires Wf(disk, b, d)
    ensures Has(disk, b, d, key) <==> key in KeysOf(disk, Leaves(disk, b, d))
    decreases d, 1, 0
  {
    if d == LEAF_LEVEL {
      assert KeysOf(disk, []) == [];
      assert KeysOf(disk, [b]) == disk(b).keys + [] == disk(b).keys;
    } else {
      HasKeyFrom(disk, b, d, key, 0);
    }
  }

  lemma {:induction false} HasKeyFrom(disk: Disk, b: nat, d: nat, key: Key, i: nat)
    requires Wf(disk, b, d) && d > LEAF_LEVEL && i <= |disk(b).children|
    ensures (exists j :: i <= j < |disk(b).children| && Has(disk, disk(b).children[j], d - 1, key))
            <==> key in KeysOf(disk, LeavesFrom(disk, b, d, i))
    decreases d, 0, |disk(b).children| - i
  {
    hide KeysOf, Leaves, LeavesFrom, Has;
    if i < |disk(b).children| {
      assert Wf(disk, disk(b).children[i], d - 1);
      HasKey(disk, disk(b).children[i], d - 1, key);
      HasKeyFrom(disk, b, d, key, i + 1);
      LeavesFromIs(disk, b, d, i);
      KeysConcat(disk, Leaves(disk, disk(b).children[i], d - 1), LeavesFrom(disk, b, d, i + 1));
    } else {
      NoLeaves(disk, b, d);
    }
  }

  // ----- The order of a tree in terms of its items

  function ChildKeys(disk: Disk, b: nat, d: nat, i: nat): seq<Key>
    requires d > LEAF_LEVEL && i < |disk(b).children|
  {
    KeysOf(disk, Leaves(disk, disk(b).children[i], d - 1))
  }

  /** Each key of an inner node is behind all items on its left and not behind those on its right. */
  ghost predicate Separated(disk: Disk, b: nat, d: nat)
    decreases d
  {
    var n := disk(b);
    d > LEAF_LEVEL ==>
      && (forall i :: 0 <= i < |n.children| ==> Separated(disk, n.children[i], d - 1))
      && (forall i, k :: 0 <= i < |n.children| && i < |n.keys| && k in ChildKeys(disk, b, d, i) ==> Less(k, n.keys[i]))
      && (forall i, k :: 0 < i < |n.children| && i <= |n.keys| && k in ChildKeys(disk, b, d, i) ==> !Less(k, n.keys[i - 1]))
  }

  /** A tree is in order exactly if its items come in the order of their keys and the keys of inner nodes separate
    * them. */
  lemma OrderedExactly(disk: Disk, b: nat, d: nat)
    requires Wf(disk, b, d)
    ensures Ordered(disk, b, d, None, None) <==> Increasing(KeysOf(disk, Leaves(disk, b, d))) && Separated(disk, b, d)
  {
    hide Wf, Ordered, KeysOf, Leaves, Separated, Increasing;
    if Ordered(disk, b, d, None, None) {
      KeysSorted(disk, b, d, None, None);
      OrderedSeparated(disk, b, d, None, None);
    } else if Increasing(KeysOf(disk, Leaves(disk, b, d))) && Separated(disk, b, d) {
      SeparatedOrdered(disk, b, d, None, None);
    }
  }

  lemma {:induction false} OrderedSeparated(disk: Disk, b: nat, d: nat, lo: Bound, hi: Bound)
    requires Wf(disk, b, d) && Ordered(disk, b, d, lo, hi)
    ensures Separated(disk, b, d)
    decreases d
  {
    var n := disk(b);
    hide Less, KeysOf, Leaves, Increasing;
    if d > LEAF_LEVEL {
      forall i | 0 <= i < |n.children|
        ensures Separated(disk, n.children[i], d - 1)
        ensures Sorted(ChildKeys(disk, b, d, i), LowerBound(n.keys, lo, i), UpperBound(n.keys, hi, i))
      {
        OrderedSeparated(disk, n.children[i], d - 1, LowerBound(n.keys, lo, i), UpperBound(n.keys, hi, i));
        KeysSorted(disk, n.children[i], d - 1, LowerBound(n.keys, lo, i), UpperBound(n.keys, hi, i));
      }
    }
  }

  lemma {:induction false} SeparatedOrdered(disk: Disk, b: nat, d: nat, lo: Bound, hi: Bound)
    requires Wf(disk, b, d) && Separated(disk, b, d) && Sorted(KeysOf(disk, Leaves(disk, b, d)), lo, hi)
    ensures Ordered(disk, b, d, lo, hi)
    decreases d
  {
    var n := disk(b);
    if d == LEAF_LEVEL {
      assert KeysOf(disk, []) == [];
      assert KeysOf(disk, [b]) == n.keys + [] == n.keys;
    } else {
      hide Less, KeysOf, Leaves, Increasing;
      forall i | 0 <= i < |n.children|
        ensures Sorted(ChildKeys(disk, b, d, i), LowerBound(n.keys, lo, i), UpperBound(n.keys, hi, i))
        ensures |ChildKeys(disk, b, d, i)| > 0
      {
        var l, r := ChildPart(disk, b, d, i, 0);
        LeavesAll(disk, b, d);
        SortedPart(l, ChildKeys(disk, b, d, i), r, lo, hi);
        KeysSome(disk, n.children[i], d - 1);
        ChildBounds(disk, b, d, lo, hi, i);
      }
      NodeKeys(disk, b, d, lo, hi);
      forall i | 0 <= i < |n.children|
        ensures Ordered(disk, n.children[i], d - 1, LowerBound(n.keys, lo, i), UpperBound(n.keys, hi, i))
      {
        assert Separated(disk, n.children[i], d - 1);
        SeparatedOrdered(disk, n.children[i], d - 1, LowerBound(n.keys, lo, i), UpperBound(n.keys, hi, i));
      }
    }
  }

  lemma LeavesAll(disk: Disk, b: nat, d: nat)
    requires d > LEAF_LEVEL
    ensures Leaves(disk, b, d) == LeavesFrom(disk, b, d, 0)
  {
  }

  lemma ChildBounds(disk: Disk, b: nat, d: nat, lo: Bound, hi: Bound, i: nat)
    requires Wf(disk, b, d) && Separated(disk, b, d) && d > LEAF_LEVEL && i < |disk(b).children|
    requires Sorted(ChildKeys(disk, b, d, i), lo, hi)
    ensures Sorted(ChildKeys(disk, b, d, i), LowerBound(disk(b).keys, lo, i), UpperBound(disk(b).keys, hi, i))
  {
    hide Less, ChildKeys, Increasing;
    var keys := ChildKeys(disk, b, d, i);
    forall j | 0 <= j < |keys|
      ensures AtLeast(keys[j], LowerBound(disk(b).keys, lo, i)) && Below(keys[j], UpperBound(disk(b).keys, hi, i))
    {
      assert keys[j] in keys;
    }
  }

  /** The keys of a node between whose keys its children's items are. */
  lemma NodeKeys(disk: Disk, b: nat, d: nat, lo: Bound, hi: Bound)
    requires Wf(disk, b, d) && d > LEAF_LEVEL
    requires forall i :: 0 <= i < |disk(b).children| ==>
               && Sorted(ChildKeys(disk, b, d, i), LowerBound(disk(b).keys, lo, i), UpperBound(disk(b).keys, hi, i))
               && |ChildKeys(disk, b, d, i)| > 0
    requires Sorted(KeysOf(disk, Leaves(disk, b, d)), lo, hi)
    ensures Increasing(disk(b).keys)
    ensures forall i :: 0 <= i < |disk(b).keys| ==> AtLeast(disk(b).keys[i], lo) && Below(disk(b).keys[i], hi)
  {
    var n := disk(b);
    assert |n.children| == |n.keys| + 1;
    hide Less, KeysOf, Leaves, ChildKeys, Wf;
    StepsUp(n.keys, seq(|n.children|, i requires 0 <= i < |n.children| => ChildKeys(disk, b, d, i)[0]), lo, hi);
  }

  /** Keys with others between them, each not below the one on its left and below the one on its right. */
  lemma StepsUp(keys: seq<Key>, mid: seq<Key>, lo: Bound, hi: Bound)
    requires |mid| == |keys| + 1
    requires forall i :: 0 <= i < |mid| ==> AtLeast(mid[i], LowerBound(keys, lo, i)) && Below(mid[i], UpperBound(keys, hi, i))
    ensures Increasing(keys) && forall i :: 0 <= i < |keys| ==> AtLeast(keys[i], lo) && Below(keys[i], hi)
  {
    forall i, j | 0 <= i < j < |keys| ensures Less(keys[i], keys[j]) {
      StepsTo(keys, mid, lo, hi, i, j);
    }
    forall i | 0 <= i < |keys| ensures AtLeast(keys[i], lo) && Below(keys[i], hi) {
      LessIs(mid[0], keys[0]);
      LessIs(mid[|keys|], keys[|keys| - 1]);
    }
  }

  lemma {:induction false} StepsTo(keys: seq<Key>, mid: seq<Key>, lo: Bound, hi: Bound, i: nat, j: nat)
    requires |mid| == |keys| + 1 && i < j < |keys|
    requires forall i :: 0 <= i < |mid| ==> AtLeast(mid[i], LowerBound(keys, lo, i)) && Below(mid[i], UpperBound(keys, hi, i))
    ensures Less(keys[i], keys[j])
    decreases j - i
  {
    assert !Less(mid[j], keys[j - 1]) && Less(mid[j], keys[j]);
    if i < j - 1 { StepsTo(keys, mid, lo, hi, i, j - 1); }
  }

  lemma SortedPart(l: seq<Key>, m: seq<Key>, r: seq<Key>, lo: Bound, hi: Bound)
    requires Sorted(l + m + r, lo, hi)
    ensures Sorted(m, lo, hi)
  {
    hide Less, AtLeast, Below;
    assert forall i :: 0 <= i < |m| ==> m[i] == (l + m + r)[|l| + i];
  }

  lemma {:induction false} ChildPart(disk: Disk, b: nat, d: nat, i: nat, j: nat) returns (l: seq<Key>, r: seq<Key>)
    requires d > LEAF_LEVEL && j <= i < |disk(b).children|
    ensures KeysOf(disk, LeavesFrom(disk, b, d, j)) == l + ChildKeys(disk, b, d, i) + r
    decreases i - j
  {
    LeavesFromIs(disk, b, d, j);
    KeysConcat(disk, Leaves(disk, disk(b).children[j], d - 1), LeavesFrom(disk, b, d, j + 1));
    if j == i {
      l, r := [], KeysOf(disk, LeavesFrom(disk, b, d, j + 1));
    } else {
      l, r := ChildPart(disk, b, d, i, j + 1);
      l := ChildKeys(disk, b, d, j) + l;
    }
  }

  /** A tree has items. */
  lemma {:induction false} KeysSome(disk: Disk, b: nat, d: nat)
    requires Wf(disk, b, d)
    ensures |KeysOf(disk, Leaves(disk, b, d))| > 0
    decreases d
  {
    if d > LEAF_LEVEL {
      var l, r := ChildPart(disk, b, d, 0, 0);
      KeysSome(disk, disk(b).children[0], d - 1);
    }
  }
}
