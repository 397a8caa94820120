/** The three edits of the prefix tree.

    Splitting a node changes no content, adding a leaf adds the new prefixes, and deleting a leaf takes
    away what only it held.  Each is stated on snapshots, so that the cache needs only to mirror the
    snapshot in its nodes. */
module RadixEdits {
  import opened RadixTree

  // ----- splitting -----

  ghost predicate Splittable(tree: Tree, root: TreeNode, child: TreeNode, fresh': TreeNode, len: nat) {
    && Shape(tree, root) && child in tree && child != root && fresh' !in tree
    && tree[child].parent in tree && 0 < len < |tree[child].key| == |tree[child].value|
  }

  /** The fields of a node after the split. */
  ghost function SplitView(tree: Tree, child: TreeNode, fresh': TreeNode, len: nat, n: TreeNode): View
    requires child in tree && tree[child].parent in tree && (n in tree || n == fresh')
    requires len < |tree[child].key| == |tree[child].value|
  {
    var c := tree[child];
    var up := tree[c.parent];
    if n == fresh' then
      View(c.key[..len], c.value[..len], c.parent, map[c.key[len] := child], c.lockRef,
           up.path + c.key[..len], up.slots + c.value[..len])
    else if n == child then
      c.(key := c.key[len..], value := c.value[len..], parent := fresh')
    else if n == c.parent then
      up.(children := up.children[c.key[0] := fresh'])
    else
      tree[n]
  }

  /** `fresh'` takes the first `len` tokens of the child, and the child the rest, below it. */
  ghost function Split(tree: Tree, root: TreeNode, child: TreeNode, fresh': TreeNode, len: nat): Tree
    requires Splittable(tree, root, child, fresh', len)
  {
    map n | n in tree.Keys + {fresh'} :: SplitView(tree, child, fresh', len, n)
  }

  lemma SplitParent(tree: Tree, root: TreeNode, child: TreeNode, fresh': TreeNode, len: nat)
    requires Splittable(tree, root, child, fresh', len)
    ensures HangsOn(tree, child) && tree[child].parent != child && |tree[tree[child].parent].path| < |tree[child].path|
    ensures tree[tree[child].parent].children[tree[child].key[0]] == child
  {
    assert HangsOn(tree, child);
  }

  /** The three nodes a split changes; the others stay. */
  lemma SplitEntries(tree: Tree, root: TreeNode, child: TreeNode, fresh': TreeNode, len: nat)
    requires Splittable(tree, root, child, fresh', len)
    ensures var tree' := Split(tree, root, child, fresh', len);
            var c := tree[child];
            var up := tree[c.parent];
            && tree'.Keys == tree.Keys + {fresh'} && c.parent != child
            && tree'[fresh'] == View(c.key[..len], c.value[..len], c.parent, map[c.key[len] := child], c.lockRef,
                                     up.path + c.key[..len], up.slots + c.value[..len])
            && tree'[child] == c.(key := c.key[len..], value := c.value[len..], parent := fresh')
            && tree'[c.parent] == up.(children := up.children[c.key[0] := fresh'])
            && (forall n :: n in tree && n != child && n != c.parent ==> tree'[n] == tree[n])
  {
    SplitParent(tree, root, child, fresh', len);
  }

  lemma Halves<T>(u: seq<T>, s: seq<T>, len: nat)
    requires len <= |s|
    ensures u + s == (u + s[..len]) + s[len..]
    ensures u + s[..len] <= u + s
  {
    assert s == s[..len] + s[len..];
  }

  /** The old nodes keep their paths, positions and locks. */
  lemma SplitKeepsPaths(tree: Tree, root: TreeNode, child: TreeNode, fresh': TreeNode, len: nat)
    requires Splittable(tree, root, child, fresh', len)
    ensures var tree' := Split(tree, root, child, fresh', len);
            && tree'.Keys == tree.Keys + {fresh'}
            && (forall n :: n in tree ==> tree'[n].path == tree[n].path && tree'[n].slots == tree[n].slots)
            && (forall n :: n in tree ==> tree'[n].lockRef == tree[n].lockRef)
            && tree'[fresh'].path <= tree[child].path && tree'[fresh'].slots <= tree[child].slots
            && |tree'[fresh'].slots| == |tree'[fresh'].path|
            && tree'[fresh'].lockRef == tree[child].lockRef
  {
    SplitParent(tree, root, child, fresh', len);
    var c := tree[child];
    var up := tree[c.parent];
    Halves(up.path, c.key, len);
    Halves(up.slots, c.value, len);
    SlotsMatchPath(tree, root, c.parent);
  }

  lemma SplitHangsOn(tree: Tree, root: TreeNode, child: TreeNode, fresh': TreeNode, len: nat, n: TreeNode)
    requires Splittable(tree, root, child, fresh', len)
    requires n in Split(tree, root, child, fresh', len) && n != root
    ensures HangsOn(Split(tree, root, child, fresh', len), n)
  {
    SplitParent(tree, root, child, fresh', len);
    SplitKeepsPaths(tree, root, child, fresh', len);
    var c := tree[child];
    var up := tree[c.parent];
    if n == child {
      Halves(up.path, c.key, len);
      Halves(up.slots, c.value, len);
    } else if n != fresh' {
      assert HangsOn(tree, n);
    }
  }

  lemma SplitChildrenOk(tree: Tree, root: TreeNode, child: TreeNode, fresh': TreeNode, len: nat, n: TreeNode)
    requires Splittable(tree, root, child, fresh', len)
    requires n in Split(tree, root, child, fresh', len)
    ensures ChildrenOk(Split(tree, root, child, fresh', len), n)
  {
    SplitParent(tree, root, child, fresh', len);
    hide HangsOn;
    if n in tree {
      assert ChildrenOk(tree, n);
    }
  }

  lemma SplitShape(tree: Tree, root: TreeNode, child: TreeNode, fresh': TreeNode, len: nat)
    requires Splittable(tree, root, child, fresh', len)
    ensures Shape(Split(tree, root, child, fresh', len), root)
  {
    hide HangsOn, ChildrenOk;
    SplitParent(tree, root, child, fresh', len);
    SplitKeepsPaths(tree, root, child, fresh', len);
    forall n | n in Split(tree, root, child, fresh', len) && n != root
      ensures HangsOn(Split(tree, root, child, fresh', len), n)
    {
      SplitHangsOn(tree, root, child, fresh', len, n);
    }
    forall n | n in Split(tree, root, child, fresh', len) ensures ChildrenOk(Split(tree, root, child, fresh', len), n) {
      SplitChildrenOk(tree, root, child, fresh', len, n);
    }
  }

  /** Splitting a node stores nothing new and forgets nothing. */
  lemma SplitStoresTheSame(tree: Tree, root: TreeNode, child: TreeNode, fresh': TreeNode, len: nat, p: seq<Token>, v: seq<int>)
    requires Splittable(tree, root, child, fresh', len)
    ensures Stored(Split(tree, root, child, fresh', len), p, v) <==> Stored(tree, p, v)
  {
    var tree' := Split(tree, root, child, fresh', len);
    SplitKeepsPaths(tree, root, child, fresh', len);
    if Stored(tree, p, v) {
      var n: TreeNode :| n in tree && p <= tree[n].path && v <= tree[n].slots && |p| == |v|;
      assert n in tree';
    }
    if Stored(tree', p, v) {
      var n: TreeNode :| n in tree' && p <= tree'[n].path && v <= tree'[n].slots && |p| == |v|;
      if n == fresh' {
        assert p <= tree[child].path && v <= tree[child].slots;
      } else {
        assert n in tree;
      }
    }
  }

  lemma SplitContents(tree: Tree, root: TreeNode, child: TreeNode, fresh': TreeNode, len: nat)
    requires Splittable(tree, root, child, fresh', len)
    ensures Contents(Split(tree, root, child, fresh', len)) == Contents(tree)
  {
    hide Split, Shape, Stored;
    forall e: (seq<Token>, seq<int>)
      ensures e in Contents(Split(tree, root, child, fresh', len)) <==> e in Contents(tree)
    {
      SplitStoresTheSame(tree, root, child, fresh', len, e.0, e.1);
    }
  }

  // ----- growing -----

  ghost predicate Growable(tree: Tree, root: TreeNode, up: TreeNode, fresh': TreeNode, key: seq<Token>, value: seq<int>) {
    && Shape(tree, root) && up in tree && fresh' !in tree && key != [] && |value| == |key|
    && key[0] !in tree[up].children
  }

  /** A new leaf below `up`. */
  ghost function Grow(tree: Tree, root: TreeNode, up: TreeNode, fresh': TreeNode, key: seq<Token>, value: seq<int>): Tree
    requires Growable(tree, root, up, fresh', key, value)
  {
    tree[fresh' := View(key, value, up, map[], 0, tree[up].path + key, tree[up].slots + value)]
        [up := tree[up].(children := tree[up].children[key[0] := fresh'])]
  }

  lemma GrowEntries(tree: Tree, root: TreeNode, up: TreeNode, fresh': TreeNode, key: seq<Token>, value: seq<int>)
    requires Growable(tree, root, up, fresh', key, value)
    ensures var tree' := Grow(tree, root, up, fresh', key, value);
            && tree'.Keys == tree.Keys + {fresh'}
            && tree'[fresh'] == View(key, value, up, map[], 0, tree[up].path + key, tree[up].slots + value)
            && (forall n :: n in tree ==>
                  tree'[n] == tree[n].(children := if n == up then tree[n].children[key[0] := fresh'] else tree[n].children))
  {
  }

  lemma GrownHangsOn(tree: Tree, root: TreeNode, up: TreeNode, fresh': TreeNode, key: seq<Token>, value: seq<int>, n: TreeNode)
    requires Growable(tree, root, up, fresh', key, value) && n in Grow(tree, root, up, fresh', key, value) && n != root
    ensures HangsOn(Grow(tree, root, up, fresh', key, value), n)
  {
    GrowEntries(tree, root, up, fresh', key, value);
    SlotsMatchPath(tree, root, up);
    if n != fresh' {
      assert HangsOn(tree, n);
    }
  }

  lemma GrownChildrenOk(tree: Tree, root: TreeNode, up: TreeNode, fresh': TreeNode, key: seq<Token>, value: seq<int>, n: TreeNode)
    requires Growable(tree, root, up, fresh', key, value) && n in Grow(tree, root, up, fresh', key, value)
    ensures ChildrenOk(Grow(tree, root, up, fresh', key, value), n)
  {
    GrowEntries(tree, root, up, fresh', key, value);
    if n != fresh' {
      assert ChildrenOk(tree, n);
    }
  }

  lemma GrowShape(tree: Tree, root: TreeNode, up: TreeNode, fresh': TreeNode, key: seq<Token>, value: seq<int>)
    requires Growable(tree, root, up, fresh', key, value)
    ensures Shape(Grow(tree, root, up, fresh', key, value), root)
  {
    hide HangsOn, ChildrenOk, Grow;
    var tree' := Grow(tree, root, up, fresh', key, value);
    GrowEntries(tree, root, up, fresh', key, value);
    forall n | n in tree' && n != root ensures HangsOn(tree', n) {
      GrownHangsOn(tree, root, up, fresh', key, value, n);
    }
    forall n | n in tree' ensures ChildrenOk(tree', n) {
      GrownChildrenOk(tree, root, up, fresh', key, value, n);
    }
  }

  /** A new leaf stores exactly the prefixes of its path besides what was stored. */
  lemma GrowStores(tree: Tree, root: TreeNode, up: TreeNode, fresh': TreeNode, key: seq<Token>, value: seq<int>,
                   p: seq<Token>, v: seq<int>)
    requires Growable(tree, root, up, fresh', key, value)
    ensures Stored(Grow(tree, root, up, fresh', key, value), p, v) <==>
            Stored(tree, p, v) || (p <= tree[up].path + key && v <= tree[up].slots + value && |p| == |v|)
  {
    var tree' := Grow(tree, root, up, fresh', key, value);
    GrowEntries(tree, root, up, fresh', key, value);
    hide Grow, Shape;
    if Stored(tree, p, v) {
      var n: TreeNode :| n in tree && p <= tree[n].path && v <= tree[n].slots && |p| == |v|;
      assert n in tree' && p <= tree'[n].path && v <= tree'[n].slots;
    }
    if p <= tree[up].path + key && v <= tree[up].slots + value && |p| == |v| {
      assert fresh' in tree' && p <= tree'[fresh'].path && v <= tree'[fresh'].slots;
    }
    if Stored(tree', p, v) {
      var n: TreeNode :| n in tree' && p <= tree'[n].path && v <= tree'[n].slots && |p| == |v|;
      if n != fresh' {
        assert n in tree && p <= tree[n].path && v <= tree[n].slots;
      }
    }
  }

  lemma GrowContents(tree: Tree, root: TreeNode, up: TreeNode, fresh': TreeNode, key: seq<Token>, value: seq<int>)
    requires Growable(tree, root, up, fresh', key, value)
    ensures Contents(Grow(tree, root, up, fresh', key, value)) ==
            Contents(tree) + Prefixes(tree[up].path + key, tree[up].slots + value)
  {
    hide Grow, Shape, Stored;
    forall e: (seq<Token>, seq<int>)
      ensures e in Contents(Grow(tree, root, up, fresh', key, value)) <==>
              e in Contents(tree) + Prefixes(tree[up].path + key, tree[up].slots + value)
    {
      GrowStores(tree, root, up, fresh', key, value, e.0, e.1);
    }
  }

  // ----- pruning -----

  ghost predicate Prunable(tree: Tree, root: TreeNode, leaf: TreeNode) {
    Shape(tree, root) && leaf in tree && leaf != root && tree[leaf].children == map[] && tree[leaf].parent in tree
    && tree[leaf].key != []
  }

  ghost function Prune(tree: Tree, root: TreeNode, leaf: TreeNode): Tree
    requires Prunable(tree, root, leaf)
  {
    var up := tree[leaf].parent;
    tree[up := tree[up].(children := tree[up].children - {tree[leaf].key[0]})] - {leaf}
  }

  lemma PruneEntries(tree: Tree, root: TreeNode, leaf: TreeNode)
    requires Prunable(tree, root, leaf)
    ensures var tree' := Prune(tree, root, leaf);
            && HangsOn(tree, leaf) && tree[leaf].parent != leaf
            && tree'.Keys == tree.Keys - {leaf}
            && (forall n :: n in tree && n != leaf ==>
                  tree'[n] == tree[n].(children := if n == tree[leaf].parent then tree[n].children - {tree[leaf].key[0]}
                                                   else tree[n].children))
  {
    assert HangsOn(tree, leaf);
  }

  lemma PruneShape(tree: Tree, root: TreeNode, leaf: TreeNode)
    requires Prunable(tree, root, leaf)
    ensures Shape(Prune(tree, root, leaf), root)
  {
    var tree' := Prune(tree, root, leaf);
    PruneEntries(tree, root, leaf);
    hide Prune;
    forall n | n in tree' && n != root ensures HangsOn(tree', n) {
      assert HangsOn(tree, n);
    }
    forall n | n in tree' ensures ChildrenOk(tree', n) {
      assert ChildrenOk(tree, n);
      assert forall t :: t in tree[n].children && tree[n].children[t] == leaf ==> n == tree[leaf].parent && t == tree[leaf].key[0];
    }
  }

  /** Deleting a leaf only forgets. */
  lemma PruneStoresLess(tree: Tree, root: TreeNode, leaf: TreeNode, p: seq<Token>, v: seq<int>)
    requires Prunable(tree, root, leaf) && Stored(Prune(tree, root, leaf), p, v)
    ensures Stored(tree, p, v)
  {
    var tree' := Prune(tree, root, leaf);
    PruneEntries(tree, root, leaf);
    hide Prune, Shape;
    var n: TreeNode :| n in tree' && p <= tree'[n].path && v <= tree'[n].slots && |p| == |v|;
    assert n in tree && p <= tree[n].path && v <= tree[n].slots;
  }

  lemma {:induction false} PruneContents(tree: Tree, root: TreeNode, leaf: TreeNode)
    requires Prunable(tree, root, leaf)
    ensures Contents(Prune(tree, root, leaf)) <= Contents(tree)
  {
    hide Prune, Shape, Stored;
    forall e: (seq<Token>, seq<int>) | e in Contents(Prune(tree, root, leaf)) ensures e in Contents(tree) {
      PruneStoresLess(tree, root, leaf, e.0, e.1);
    }
  }
}
