/** The ReiserFS tree cursor: a cache of the nodes on the current path, and the way to the next
  * item kept as one number per level.
  */
module ReiserFs {
  import opened ReiserTree

  const MAX_TREE_HEIGHT: nat := 7

  /** The item header the cursor points to: one of the leaf's items, or the largest key. */
  datatype Cursor = Item(k: nat) | MaxKey

  class Reiser {
    /** Reading a block, the journal taken into account. */
    const disk: Disk
    const root: nat
    const treeDepth: nat
    const cachedSlots: nat

    /** Node cache: the root in slot 0, the leaf in slot 1, then the other nodes of the path. */
    const cache: array<Node>
    const blocks: array<nat>
    const nextKeyNr: array<nat>
    var current: Cursor

    /** The number of the child taken at each level. */
    ghost var path: seq<nat>

    /** A well-formed tree whose path fits into the cache; every node in the cache is the block
      * its number says. */
    ghost predicate Valid()
      reads this, cache, blocks
    {
      && LEAF_LEVEL <= treeDepth < MAX_TREE_HEIGHT && treeDepth <= cachedSlots
      && cache.Length == cachedSlots + 1
      && blocks.Length == nextKeyNr.Length == MAX_TREE_HEIGHT && blocks != nextKeyNr
      && Wf(disk, root, treeDepth)
      && cache[0] == disk(root)
      && (treeDepth == LEAF_LEVEL ==> cache[LEAF_LEVEL] == disk(root))
      && forall d :: LEAF_LEVEL <= d < treeDepth && blocks[d] != 0 ==> cache[d] == disk(blocks[d])
    }

    /** The blocks on the path, by level. */
    ghost function Path(): (B: seq<nat>)
      requires treeDepth < blocks.Length
      reads this, blocks
      ensures |B| == blocks.Length
    {
      blocks[..][treeDepth := root]
    }

    /** From the root down to level `low` the cursor's numbers say which child comes next. */
    ghost predicate PathOK(low: nat)
      requires Valid()
      reads this, cache, blocks, nextKeyNr
    {
      && |path| == MAX_TREE_HEIGHT
      && PathDown(disk, treeDepth, low, Path(), path)
      && forall d :: low < d <= treeDepth ==>
           nextKeyNr[d] == if path[d] == |disk(Path()[d]).keys| then 0 else path[d] + 1
    }

    /** The cursor is at an item. */
    ghost predicate AtItem()
      reads this, cache, blocks, nextKeyNr
    {
      && Valid() && PathOK(LEAF_LEVEL)
      && current.Item? && current.k < |disk(Path()[LEAF_LEVEL]).keys|
    }

    ghost function Here(): Place
      requires AtItem()
      reads this, cache, blocks, nextKeyNr
    {
      Place(Path()[LEAF_LEVEL], current.k)
    }

    /** All items after the cursor, in tree order. */
    ghost function Rest(): seq<Place>
      requires AtItem()
      reads this, cache, blocks, nextKeyNr
    {
      ItemsFrom(disk, Path()[LEAF_LEVEL], current.k + 1) + Items(disk, After(disk, Path(), path, treeDepth))
    }

    /** All items before it. */
    ghost function Seen(): seq<Place>
      requires AtItem()
      reads this, cache, blocks, nextKeyNr
    {
      Items(disk, Before(disk, Path(), path, treeDepth)) + ItemsFrom(disk, Path()[LEAF_LEVEL], 0)[..current.k]
    }

    /** The items seen, the current one and the rest are exactly the tree's items, in order.  So
      * repeated calls of NextKey come past every later item once, and then report the end. */
    lemma AllItems()
      requires AtItem()
      ensures Items(disk, Leaves(disk, root, treeDepth)) == Seen() + [Here()] + Rest()
    {
      hide Wf, Leaves, LeavesFrom, After, Before, Items;
      PathSplits(disk, treeDepth, Path(), path, treeDepth);
      ItemsAround(disk, Before(disk, Path(), path, treeDepth), Path()[LEAF_LEVEL],
                  After(disk, Path(), path, treeDepth), current.k);
    }

    /** The root has been read in; if it is the only node, it is also the leaf. */
    constructor (disk: Disk, root: nat, cachedSlots: nat)
      requires Wf(disk, root, disk(root).level)
      requires disk(root).level < MAX_TREE_HEIGHT && disk(root).level <= cachedSlots
      ensures Valid() && this.disk == disk && this.root == root && treeDepth == disk(root).level
      ensures fresh(cache) && fresh(blocks) && fresh(nextKeyNr)
    {
      this.disk, this.root, this.cachedSlots := disk, root, cachedSlots;
      treeDepth := disk(root).level;
      cache := new Node[cachedSlots + 1](_ => disk(root));
      blocks := new nat[MAX_TREE_HEIGHT](_ => 0);
      nextKeyNr := new nat[MAX_TREE_HEIGHT](_ => 0);
      current := MaxKey;
      path := [];
    }

    /** The slot of the cache that holds block `blockNr`, the path's node at level `depth`. */
    method ReadTreeNode(blockNr: nat, depth: nat) returns (ok: bool, slot: nat)
      requires Valid() && LEAF_LEVEL <= depth < treeDepth && blockNr != 0
      modifies cache, blocks
      ensures ok <==> old(blocks[depth]) == blockNr || disk(blockNr).level == depth
      ensures ok ==> Valid() && slot == depth && cache[slot] == disk(blockNr) && blocks[..] == old(blocks[..])[depth := blockNr]
      ensures forall i :: 0 <= i < cache.Length && i != depth ==> cache[i] == old(cache[i])
      // a node of the wrong level stays in the cache under the old block's number
      ensures !ok ==> blocks[..] == old(blocks[..]) && cache[depth] == disk(blockNr)
    {
      ok, slot := true, depth;
      if depth < cachedSlots {
        // levels below this bound have a slot of their own
        if blockNr == blocks[depth] {
          return;
        }
      } else {
        slot := cachedSlots;
      }
      cache[slot] := disk(blockNr);
      // a node of another level does not belong here
      if cache[slot].level != depth {
        return false, slot;
      }
      blocks[depth] := blockNr;
    }
  
    /** The child to search: that of the first key behind the object's. */
    method FindBranch(n: Node, dir: nat, obj: nat) returns (i: nat)
      ensures Branch(n, dir, obj, i)
    {
      i := 0;
      while i < |n.keys|
        invariant 0 <= i <= |n.keys|
        invariant forall j :: 0 <= j < i ==> !Behind(n.keys[j], dir, obj)
      {
        if Behind(n.keys[i], dir, obj) {
          return;
        }
        i := i + 1;
      }
    }

    /** Take child `i` at level `depth`: note the way on from there, and read the child in. */
    method Down(depth: nat, slot: nat, i: nat) returns (child: nat)
      requires Valid() && PathOK(depth) && LEAF_LEVEL < depth <= treeDepth
      requires slot < cache.Length && cache[slot] == disk(Path()[depth])
      requires NodeOK(disk, Path()[depth], depth) && i < |cache[slot].children|
      modifies this`path, cache, blocks, nextKeyNr
      ensures Valid() && PathOK(depth - 1) && path == old(path)[depth := i]
      ensures child < cache.Length && cache[child] == disk(Path()[depth - 1])
      ensures child == depth - 1
      ensures Path() == old(Path())[depth - 1 := old(disk(Path()[depth]).children[i])]
      ensures nextKeyNr[..] == old(nextKeyNr[..])[depth := nextKeyNr[depth]]
    {
      hide Wf;
      ghost var B := Path();
      var n := cache[slot];
      Extend(disk, treeDepth, depth, B, path, i);
      nextKeyNr[depth] := if i == |n.keys| then 0 else i + 1;
      path := path[depth := i];
      var ok;
      ok, child := ReadTreeNode(n.children[i], depth - 1);
      assert Path() == B[depth - 1 := n.children[i]];
    }

    /** If the tree is in order, what is being searched for is below block `b` if anywhere. */
    ghost predicate Leads(b: nat, depth: nat, lo: Bound, hi: Bound, key: Key) {
      Ordered(disk, root, treeDepth, None, None) ==>
        && Ordered(disk, b, depth, lo, hi)
        && (Has(disk, root, treeDepth, key) <==> Has(disk, b, depth, key))
    }

    lemma LeadsOn(b: nat, depth: nat, lo: Bound, hi: Bound, dir: nat, obj: nat, i: nat)
      requires Leads(b, depth, lo, hi, StatKey(dir, obj)) && Branch(disk(b), dir, obj, i)
      requires depth > LEAF_LEVEL && Wf(disk, b, depth)
      ensures i < |disk(b).children|
      ensures Leads(disk(b).children[i], depth - 1, LowerBound(disk(b).keys, lo, i), UpperBound(disk(b).keys, hi, i), StatKey(dir, obj))
    {
      hide Ordered, Has, Branch;
      BranchBound(disk(b), dir, obj, i);
      if Ordered(disk, root, treeDepth, None, None) {
        SearchStep(disk, b, depth, lo, hi, dir, obj, i);
      }
    }

    lemma ValidTree()
      requires Valid()
      ensures Wf(disk, root, treeDepth)
    {
    }

    /** Find the stat data of an object; in a tree in order, exactly if there is any. */
    method SearchStat(dir: nat, obj: nat) returns (ok: bool)
      requires Valid()
      modifies this`current, this`path, cache, blocks, nextKeyNr
      ensures Valid()
      ensures ok ==> AtItem() && disk(Here().block).level == 1 && disk(Here().block).keys[Here().item] == Key(dir, obj, 0, 0)
      ensures !ok ==> current == old(current)
      ensures Increasing(KeysOf(disk, Leaves(disk, root, treeDepth))) && Separated(disk, root, treeDepth) ==>
                (ok <==> Key(dir, obj, 0, 0) in KeysOf(disk, Leaves(disk, root, treeDepth)))
    {
      hide Wf, Ordered, Has, Branch, KeysOf, Leaves, Increasing, Separated;
      ValidTree();
      OrderedExactly(disk, root, treeDepth);
      HasKey(disk, root, treeDepth, StatKey(dir, obj));
      path := seq(MAX_TREE_HEIGHT, _ => 0);
      var depth: nat, slot: nat := treeDepth, 0;
      ghost var lo, hi := None, None;
      while depth > LEAF_LEVEL
        invariant LEAF_LEVEL <= depth <= treeDepth && Valid() && PathOK(depth)
        invariant slot == (if depth == treeDepth then 0 else depth) && current == old(current)
        invariant cache[slot] == disk(Path()[depth])
        invariant Leads(Path()[depth], depth, lo, hi, StatKey(dir, obj))
      {
        ghost var b := Path()[depth];
        ghost var n := cache[slot];
        var i := FindBranch(cache[slot], dir, obj);
        PathWf(disk, treeDepth, depth, Path(), path, depth);
        LeadsOn(b, depth, lo, hi, dir, obj, i);
        slot := Down(depth, slot, i);
        lo, hi := LowerBound(n.keys, lo, i), UpperBound(n.keys, hi, i);
        depth := depth - 1;
      }
      HasLeaf(disk, Path()[LEAF_LEVEL], StatKey(dir, obj));
      ok := FindStat(dir, obj);
    }

    /** Look for the stat data in the leaf. */
    method FindStat(dir: nat, obj: nat) returns (ok: bool)
      requires Valid() && PathOK(LEAF_LEVEL)
      modifies this`current
      ensures Valid() && PathOK(LEAF_LEVEL)
      ensures ok <==> exists i :: 0 <= i < |disk(Path()[LEAF_LEVEL]).keys| && disk(Path()[LEAF_LEVEL]).keys[i] == StatKey(dir, obj)
      ensures ok ==> AtItem() && disk(Here().block).level == 1 && disk(Here().block).keys[Here().item] == StatKey(dir, obj)
      ensures !ok ==> current == old(current)
    {
      hide Wf;
      PathWf(disk, treeDepth, LEAF_LEVEL, Path(), path, LEAF_LEVEL);
      var leaf := cache[LEAF_LEVEL];
      var i := 0;
      while i < |leaf.keys|
        invariant 0 <= i <= |leaf.keys|
        invariant forall j :: 0 <= j < i ==> leaf.keys[j] != StatKey(dir, obj)
      {
        if leaf.keys[i] == StatKey(dir, obj) {
          current := Item(i);
          return true;
        }
        i := i + 1;
      }
      ok := false;
    }
  
    /** Go up to the lowest level with another child to the right; none: the path's last. */
    method Up() returns (e: nat)
      requires AtItem()
      ensures LEAF_LEVEL < e <= treeDepth + 1
      ensures e <= treeDepth ==> path[e] + 1 < |disk(Path()[e]).children| && nextKeyNr[e] == path[e] + 1
      ensures forall d :: LEAF_LEVEL < d < e ==> nextKeyNr[d] == 0 && path[d] + 1 == |disk(Path()[d]).children|
    {
      hide Wf;
      e := LEAF_LEVEL;
      while true
        invariant LEAF_LEVEL <= e <= treeDepth
        invariant forall d :: LEAF_LEVEL < d <= e ==> nextKeyNr[d] == 0 && path[d] + 1 == |disk(Path()[d]).children|
        decreases treeDepth - e
      {
        if e == treeDepth {
          return treeDepth + 1;
        }
        e := e + 1;
        PathWf(disk, treeDepth, LEAF_LEVEL, Path(), path, e);
        if nextKeyNr[e] != 0 {
          return;
        }
      }
    }

    /** Take the next child at level `e`, and first children from there down to the leaf. */
    method Leftmost(e: nat)
      requires AtItem() && LEAF_LEVEL < e <= treeDepth
      requires path[e] + 1 < |disk(Path()[e]).children| && nextKeyNr[e] == path[e] + 1
      requires forall d :: LEAF_LEVEL < d < e ==> nextKeyNr[d] == 0
      modifies this`path, cache, blocks, nextKeyNr
      ensures Valid() && PathOK(LEAF_LEVEL)
      ensures Turning(treeDepth, e, old(Path()), old(path), Path(), path, nextKeyNr[..], LEAF_LEVEL)
    {
      hide Wf, Turning, PathDown;
      ghost var B, P := Path(), path;
      var depth, slot: nat := e, if e == treeDepth then 0 else e;
      PathWf(disk, treeDepth, LEAF_LEVEL, Path(), path, e);
      PathEnds(disk, treeDepth, LEAF_LEVEL, B, P, e);
      TurnStart(treeDepth, e, B, P, nextKeyNr[..]);
      while depth > LEAF_LEVEL
        invariant LEAF_LEVEL <= depth <= e && Valid() && PathOK(depth)
        invariant slot == (if depth == treeDepth then 0 else depth)
        invariant cache[slot] == disk(Path()[depth])
        invariant Turning(treeDepth, e, B, P, Path(), path, nextKeyNr[..], depth)
      {
        ghost var b, p, nk := Path(), path, nextKeyNr[..];
        PathWf(disk, treeDepth, depth, Path(), path, depth);
        TurnFrom(treeDepth, e, B, P, b, p, nk, depth);
        slot := Down(depth, slot, nextKeyNr[depth]);
        TurnStep(treeDepth, e, B, P, b, p, nk, depth, Path()[depth - 1], nextKeyNr[depth]);
        depth := depth - 1;
      }
    }

    /** Go on to the first item of the next leaf, whose path branches off at level `e`. */
    method NextLeaf(e: nat)
      requires AtItem() && LEAF_LEVEL < e <= treeDepth
      requires current.k + 1 == |disk(Path()[LEAF_LEVEL]).keys|
      requires path[e] + 1 < |disk(Path()[e]).children| && nextKeyNr[e] == path[e] + 1
      requires forall d :: LEAF_LEVEL < d < e ==> nextKeyNr[d] == 0 && path[d] + 1 == |disk(Path()[d]).children|
      modifies this`current, this`path, cache, blocks, nextKeyNr
      ensures AtItem() && old(Rest()) == [Here()] + Rest()
    {
      hide Wf, Leaves, LeavesFrom, After, Items;
      ghost var B, P := Path(), path;
      Leftmost(e);
      current := Item(0);
      PathWf(disk, treeDepth, LEAF_LEVEL, Path(), path, LEAF_LEVEL);
      Advance(disk, treeDepth, B, P, Path(), path, e, treeDepth);
      ItemsCons(disk, Path()[LEAF_LEVEL], After(disk, Path(), path, treeDepth));
    }

    /** Go on to the next item in tree order; after the last, to the largest key. */
    method NextKey()
      requires AtItem()
      modifies this`current, this`path, cache, blocks, nextKeyNr
      ensures Valid()
      ensures old(|Rest()|) > 0 ==> AtItem() && old(Rest()) == [Here()] + Rest()
      ensures old(|Rest()|) == 0 ==> current == MaxKey
    {
      hide Wf, Leaves, LeavesFrom, After, PathDown;
      PathWf(disk, treeDepth, LEAF_LEVEL, Path(), path, LEAF_LEVEL);
      if current.k + 1 < |cache[LEAF_LEVEL].keys| {
        current := Item(current.k + 1);
        return;
      }
      var e := Up();
      if e > treeDepth {
        AfterLast(disk, Path(), path, treeDepth);
        current := MaxKey;
        return;
      }
      NextLeaf(e);
    }

    /** Go on `n` times, noting the items come to. */
    method NextKeys(n: nat) returns (visited: seq<Place>)
      requires AtItem()
      modifies this`current, this`path, cache, blocks, nextKeyNr
      ensures Valid()
      ensures visited == if n <= old(|Rest()|) then old(Rest())[..n] else old(Rest())
      ensures n <= old(|Rest()|) ==> AtItem() && Rest() == old(Rest())[n..]
      ensures n > old(|Rest()|) ==> current == MaxKey
    {
      hide Wf, Leaves, LeavesFrom, After, PathDown, PathOK;
      visited := [];
      ghost var rest := Rest();
      var i := 0;
      while i < n
        invariant i <= n && i <= |rest| && AtItem()
        invariant visited == rest[..i] && Rest() == rest[i..]
      {
        NextKey();
        if current == MaxKey {
          return;
        }
        visited := visited + [Place(if treeDepth == LEAF_LEVEL then root else blocks[LEAF_LEVEL], current.k)];
        i := i + 1;
      }
    }
  }

  /** On the way from path `B0`, `P0` to the leaf next to its own: the new path branches off at
    * level `e` and goes on through first children, so far down to level `depth`. */
  ghost predicate Turning(treeDepth: nat, e: nat, B0: seq<nat>, P0: seq<nat>, B: seq<nat>, P: seq<nat>, nk: seq<nat>, depth: nat) {
    && depth <= e <= treeDepth < |B0| == |P0| == |B| == |P| == |nk|
    && (forall d :: e <= d <= treeDepth ==> B[d] == B0[d])
    && (forall d :: e < d <= treeDepth ==> P[d] == P0[d])
    && (depth < e ==> P[e] == P0[e] + 1)
    && (forall d :: depth < d < e ==> P[d] == 0)
    && (LEAF_LEVEL < depth ==> nk[depth] == if depth == e then P0[e] + 1 else 0)
    && (forall d :: LEAF_LEVEL < d < depth ==> nk[d] == 0)
  }

  lemma TurnStart(treeDepth: nat, e: nat, B: seq<nat>, P: seq<nat>, nk: seq<nat>)
    requires e <= treeDepth < |B| == |P| == |nk| && nk[e] == P[e] + 1
    requires forall d :: LEAF_LEVEL < d < e ==> nk[d] == 0
    ensures Turning(treeDepth, e, B, P, B, P, nk, e)
  {
  }

  lemma TurnFrom(treeDepth: nat, e: nat, B0: seq<nat>, P0: seq<nat>, B: seq<nat>, P: seq<nat>, nk: seq<nat>, depth: nat)
    requires Turning(treeDepth, e, B0, P0, B, P, nk, depth) && LEAF_LEVEL < depth
    ensures depth < |nk| && nk[depth] == if depth == e then P0[e] + 1 else 0
    ensures depth == e ==> B[e] == B0[e]
  {
  }

  lemma TurnStep(treeDepth: nat, e: nat, B0: seq<nat>, P0: seq<nat>, B: seq<nat>, P: seq<nat>, nk: seq<nat>, depth: nat, child: nat, n: nat)
    requires Turning(treeDepth, e, B0, P0, B, P, nk, depth) && LEAF_LEVEL < depth
    ensures Turning(treeDepth, e, B0, P0, B[depth - 1 := child], P[depth := nk[depth]], nk[depth := n], depth - 1)
  {
  }

  lemma ItemsCons(disk: Disk, b: nat, rest: seq<nat>)
    requires |disk(b).keys| > 0
    ensures Items(disk, [b] + rest) == [Place(b, 0)] + (ItemsFrom(disk, b, 1) + Items(disk, rest))
  {
    assert ([b] + rest)[1..] == rest;
  }

  lemma BranchBound(n: Node, dir: nat, obj: nat, i: nat)
    requires Branch(n, dir, obj, i)
    ensures i <= |n.keys|
  {
  }

  lemma HasLeaf(disk: Disk, b: nat, key: Key)
    ensures Has(disk, b, LEAF_LEVEL, key) <==> exists i :: 0 <= i < |disk(b).keys| && disk(b).keys[i] == key
  {
  }
}
