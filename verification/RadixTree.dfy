/** The shape of the prefix tree, on snapshots of its nodes. */
module RadixTree {
  // Each node carries a piece of token sequence (its key) with one cache position per token.  The path of a node
  // is the token sequence from the root to the end of its key.  A tree stores every prefix of every path,
  // together with the positions along it.

  type Token = int

  class TreeNode {
    var key: seq<Token>
    var value: seq<int>
    var parent: TreeNode?
    var children: map<Token, TreeNode>
    var lockRef: nat
    var lastAccess: int

    constructor (key: seq<Token>, value: seq<int>, parent: TreeNode?, lockRef: nat, now: int)
      ensures this.key == key && this.value == value && this.parent == parent
      ensures children == map[] && this.lockRef == lockRef && lastAccess == now
    {
      this.key, this.value, this.parent, this.lockRef := key, value, parent, lockRef;
      children, lastAccess := map[], now;
    }
  }

  /** A node's fields, with its path and the positions along the path. */
  datatype View = View(key: seq<Token>, value: seq<int>, parent: TreeNode?, children: map<Token, TreeNode>,
                       lockRef: nat, path: seq<Token>, slots: seq<int>)

  type Tree = map<TreeNode, View>

  // ----- shape -----

  ghost predicate HangsOn(tree: Tree, n: TreeNode)
    requires n in tree
  {
    var v := tree[n];
    && v.parent != null && v.parent in tree
    && v.key != [] && |v.value| == |v.key|
    && v.path == tree[v.parent].path + v.key && v.slots == tree[v.parent].slots + v.value
    && |v.slots| == |v.path|
    && v.key[0] in tree[v.parent].children && tree[v.parent].children[v.key[0]] == n
  }

  ghost predicate ChildrenOk(tree: Tree, n: TreeNode)
    requires n in tree
  {
    forall t :: t in tree[n].children ==>
      && tree[n].children[t] in tree
      && tree[tree[n].children[t]].parent == n
      && tree[tree[n].children[t]].key != [] && tree[tree[n].children[t]].key[0] == t
  }

  ghost predicate Shape(tree: Tree, root: TreeNode) {
    && root in tree && tree[root].path == [] && tree[root].slots == [] && tree[root].key == []
    && tree[root].value == [] && tree[root].parent == null
    && (forall n {:trigger HangsOn(tree, n)} :: n in tree && n != root ==> HangsOn(tree, n))
    && (forall n {:trigger ChildrenOk(tree, n)} :: n in tree ==> ChildrenOk(tree, n))
  }

  /** The tree holds the token sequence `p`, cached at the positions `v`. */
  ghost predicate Stored(tree: Tree, p: seq<Token>, v: seq<int>) {
    exists n :: n in tree && p <= tree[n].path && v <= tree[n].slots && |p| == |v|
  }

  /** What a tree caches, seen from outside: token sequences with their positions. */
  type Cached = iset<(seq<Token>, seq<int>)>

  ghost function Contents(tree: Tree): Cached {
    iset e: (seq<Token>, seq<int>) | Stored(tree, e.0, e.1)
  }

  ghost predicate Holds(cached: Cached, p: seq<Token>) {
    exists v :: (p, v) in cached
  }

  /** `m` is the length of the longest prefix of `key` that is cached. */
  ghost predicate Longest(cached: Cached, key: seq<Token>, m: nat) {
    && m <= |key| && Holds(cached, key[..m])
    && forall k :: m < k <= |key| ==> !Holds(cached, key[..k])
  }

  /** All prefixes of a key with its positions. */
  ghost function Prefixes(key: seq<Token>, slots: seq<int>): Cached {
    iset e: (seq<Token>, seq<int>) | e.0 <= key && e.1 <= slots && |e.0| == |e.1|
  }

  // ----- walking down -----

  lemma NonRootHasPath(tree: Tree, root: TreeNode, n: TreeNode)
    requires Shape(tree, root) && n in tree
    ensures n != root <==> tree[n].path != []
  {
    if n != root {
      assert HangsOn(tree, n);
    }
  }

  /** A node's path splits into its parent's path and its key. */
  lemma ParentPath(tree: Tree, n: TreeNode)
    requires n in tree && HangsOn(tree, n)
    ensures var up := tree[tree[n].parent].path;
            && |up| < |tree[n].path| && tree[n].path[..|up|] == up && tree[n].path[|up|..] == tree[n].key
            && tree[n].path[|up|] == tree[n].key[0]
            && (tree[n].slots[..|tree[tree[n].parent].slots|] == tree[tree[n].parent].slots)
  {
  }

  /** A longer path leaves a node through the child its next token names, and along the child's key. */
  lemma {:induction false} Descend(tree: Tree, root: TreeNode, cur: TreeNode, n: TreeNode)
    requires Shape(tree, root) && cur in tree && n in tree
    requires tree[cur].path <= tree[n].path && |tree[cur].path| < |tree[n].path|
    ensures var t := tree[n].path[|tree[cur].path|];
            t in tree[cur].children && tree[cur].children[t] in tree && tree[tree[cur].children[t]].path <= tree[n].path
    decreases |tree[n].path|, 0
  {
    NonRootHasPath(tree, root, n);
    assert HangsOn(tree, n);
    var q := tree[n].parent;
    if |tree[q].path| > |tree[cur].path| {
      Descend(tree, root, cur, q);
    } else if |tree[q].path| == |tree[cur].path| {
      SamePath(tree, root, q, cur);
    } else {
      Descend(tree, root, q, cur);
    }
  }

  /** No two nodes have the same path. */
  lemma {:induction false} SamePath(tree: Tree, root: TreeNode, a: TreeNode, b: TreeNode)
    requires Shape(tree, root) && a in tree && b in tree && tree[a].path == tree[b].path
    ensures a == b
    decreases |tree[a].path|, 1
  {
    NonRootHasPath(tree, root, a);
    NonRootHasPath(tree, root, b);
    if a != root {
      ParentPath(tree, a);
      ParentPath(tree, b);
      var p, q := tree[a].parent, tree[b].parent;
      if |tree[p].path| == |tree[q].path| {
        SamePath(tree, root, p, q);
      } else if |tree[p].path| < |tree[q].path| {
        ShorterPrefix(tree[a].path, tree[p].path, tree[q].path);
        Descend(tree, root, p, q);
      } else {
        ShorterPrefix(tree[a].path, tree[q].path, tree[p].path);
        Descend(tree, root, q, p);
      }
    }
  }

  lemma ShorterPrefix(path: seq<Token>, a: seq<Token>, b: seq<Token>)
    requires a <= path && b <= path && |a| <= |b|
    ensures a <= b && (|a| < |b| ==> b[|a|] == path[|a|])
  {
  }

  /** Nothing else ends within the key of a node. */
  lemma NothingWithinKey(tree: Tree, root: TreeNode, cur: TreeNode, n: TreeNode)
    requires Shape(tree, root) && cur in tree && n in tree && cur != root
    requires tree[n].path <= tree[cur].path && tree[cur].parent in tree
    requires |tree[n].path| > |tree[tree[cur].parent].path|
    ensures n == cur
  {
    assert HangsOn(tree, cur);
    Descend(tree, root, tree[cur].parent, n);
    SamePath(tree, root, cur, n);
  }

  /** The positions of a stored sequence are determined by the sequence. */
  lemma {:induction false} SlotsAreUnique(tree: Tree, root: TreeNode, a: TreeNode, b: TreeNode, k: nat)
    requires Shape(tree, root) && a in tree && b in tree
    requires k <= |tree[a].path| && k <= |tree[b].path| && tree[a].path[..k] == tree[b].path[..k]
    ensures k <= |tree[a].slots| && k <= |tree[b].slots| && tree[a].slots[..k] == tree[b].slots[..k]
    decreases |tree[a].path| + |tree[b].path|
  {
    NonRootHasPath(tree, root, a);
    NonRootHasPath(tree, root, b);
    if a == b {
      assert a != root ==> HangsOn(tree, a);
    } else if |tree[a].path| <= |tree[b].path| {
      ClimbForSlots(tree, root, a, b, k);
    } else {
      ClimbForSlots(tree, root, b, a, k);
    }
  }

  /** Whoever shares a path into the key of `b` runs through `b`. */
  lemma SharedIntoKey(tree: Tree, root: TreeNode, a: TreeNode, b: TreeNode, k: nat)
    requires Shape(tree, root) && a in tree && b in tree && b != root
    requires k <= |tree[a].path| && k <= |tree[b].path| && tree[a].path[..k] == tree[b].path[..k]
    requires tree[b].parent in tree && |tree[tree[b].parent].path| < k
    ensures tree[b].path <= tree[a].path
  {
    assert HangsOn(tree, b);
    ParentPath(tree, b);
    var up := tree[tree[b].parent].path;
    assert tree[a].path[..|up|] == tree[a].path[..k][..|up|] == tree[b].path[..k][..|up|] == up;
    assert tree[a].path[|up|] == tree[a].path[..k][|up|] == tree[b].path[|up|];
    Descend(tree, root, tree[b].parent, a);
  }

  lemma {:induction false} ClimbForSlots(tree: Tree, root: TreeNode, a: TreeNode, b: TreeNode, k: nat)
    requires Shape(tree, root) && a in tree && b in tree && a != b && |tree[a].path| <= |tree[b].path|
    requires k <= |tree[a].path| && tree[a].path[..k] == tree[b].path[..k]
    ensures k <= |tree[a].slots| && k <= |tree[b].slots| && tree[a].slots[..k] == tree[b].slots[..k]
    decreases |tree[a].path| + |tree[b].path|, 0
  {
    if tree[b].path == [] {
      SamePath(tree, root, a, b);
    } else {
      NonRootHasPath(tree, root, b);
      ParentPath(tree, b);
      var q := tree[b].parent;
      if k <= |tree[q].path| {
        assert tree[q].path[..k] == tree[b].path[..k];
        SlotsAreUnique(tree, root, a, q, k);
        assert tree[b].slots[..k] == tree[q].slots[..k];
      } else {
        SharedIntoKey(tree, root, a, b, k);
        assert tree[a].path == tree[b].path;
        SamePath(tree, root, a, b);
      }
    }
  }

  // ----- what is cached -----

  lemma SlotsMatchPath(tree: Tree, root: TreeNode, n: TreeNode)
    requires Shape(tree, root) && n in tree
    ensures |tree[n].slots| == |tree[n].path|
  {
    if n != root {
      assert HangsOn(tree, n);
    }
  }

  /** The contents are closed under prefixes, and give each sequence one list of positions. */
  lemma ContentsArePrefixClosed(tree: Tree, root: TreeNode, p: seq<Token>, v: seq<int>, k: nat)
    requires Shape(tree, root) && (p, v) in Contents(tree) && k <= |p|
    ensures |v| == |p| && (p[..k], v[..k]) in Contents(tree)
    ensures forall w :: (p, w) in Contents(tree) ==> w == v
  {
    var n: TreeNode :| n in tree && p <= tree[n].path && v <= tree[n].slots && |p| == |v|;
    assert p[..k] <= tree[n].path && v[..k] <= tree[n].slots;
    forall w | (p, w) in Contents(tree) ensures w == v {
      var m: TreeNode :| m in tree && p <= tree[m].path && w <= tree[m].slots && |p| == |w|;
      assert tree[n].path[..|p|] == p == tree[m].path[..|p|];
      SlotsAreUnique(tree, root, n, m, |p|);
    }
  }

  /** Where no child continues the key, the walk has matched the longest cached prefix. */
  lemma Exhausted(tree: Tree, root: TreeNode, cur: TreeNode, key: seq<Token>)
    requires Shape(tree, root) && cur in tree && tree[cur].path <= key
    requires tree[cur].path == key || key[|tree[cur].path|] !in tree[cur].children
    ensures Longest(Contents(tree), key, |tree[cur].path|)
    ensures (tree[cur].path, tree[cur].slots) in Contents(tree)
  {
    var m := |tree[cur].path|;
    SlotsMatchPath(tree, root, cur);
    var e := (tree[cur].path, tree[cur].slots);
    assert tree[cur].path <= tree[cur].path && tree[cur].slots <= tree[cur].slots;
    assert e in Contents(tree);
    assert key[..m] == tree[cur].path;
    forall k | m < k <= |key| ensures !Holds(Contents(tree), key[..k]) {
      if Holds(Contents(tree), key[..k]) {
        var v :| (key[..k], v) in Contents(tree);
        var n: TreeNode :| n in tree && key[..k] <= tree[n].path && v <= tree[n].slots && k == |v|;
        assert tree[n].path[m] == key[..k][m] == key[m];
        assert tree[cur].path <= tree[n].path;
        Descend(tree, root, cur, n);
      }
    }
  }

  /** Following a child whose whole key continues the rest of the key. */
  lemma FollowChild(tree: Tree, root: TreeNode, cur: TreeNode, rest: seq<Token>)
    requires Shape(tree, root) && cur in tree && rest != [] && rest[0] in tree[cur].children
    ensures var c := tree[cur].children[rest[0]];
            && c in tree && c != root && HangsOn(tree, c) && tree[c].parent == cur && tree[c].key[0] == rest[0]
  {
    assert ChildrenOk(tree, cur);
    var t := rest[0];
    var c := tree[cur].children[t];
    assert c in tree && tree[c].parent == cur && tree[c].key != [] && tree[c].key[0] == t;
    assert c != root;
    assert HangsOn(tree, c);
  }

  // ----- what a walk passes -----

  /** A walk along `p` passes the node, or ends within its key. */
  ghost predicate OnWalk(tree: Tree, n: TreeNode, p: seq<Token>)
    requires n in tree
  {
    var v := tree[n];
    v.path == [] || (0 < |v.key| <= |v.path| && v.path[..|v.path| - |v.key| + 1] <= p)
  }

  lemma WalkBegins(tree: Tree, root: TreeNode, n: TreeNode)
    requires Shape(tree, root) && n in tree
    ensures OnWalk(tree, n, []) <==> n == root
  {
    NonRootHasPath(tree, root, n);
  }

  /** Walking on into the key of a child passes that child and no other node. */
  lemma WalkGoesOn(tree: Tree, root: TreeNode, cur: TreeNode, rest: seq<Token>, len: nat, n: TreeNode)
    requires Shape(tree, root) && cur in tree && n in tree && rest != [] && rest[0] in tree[cur].children
    requires var c := tree[cur].children[rest[0]];
             c in tree && 0 < len <= |tree[c].key| && len <= |rest| && tree[c].key[..len] == rest[..len]
    ensures OnWalk(tree, n, tree[cur].path + rest[..len]) <==>
            OnWalk(tree, n, tree[cur].path) || n == tree[cur].children[rest[0]]
  {
    FollowChild(tree, root, cur, rest);
    var c := tree[cur].children[rest[0]];
    var p, longer := tree[cur].path, tree[cur].path + rest[..len];
    ParentPath(tree, c);
    assert longer <= tree[c].path;
    if n != root {
      NonRootHasPath(tree, root, n);
      assert HangsOn(tree, n);
      ParentPath(tree, n);
      var q := tree[n].parent;
      var entry := tree[n].path[..|tree[q].path| + 1];
      assert entry[|tree[q].path|] == tree[n].key[0] && entry[..|tree[q].path|] == tree[q].path;
      if entry <= longer && !(entry <= p) {
        EntryBeyond(tree, root, cur, c, q, entry, longer);
      }
    }
  }

  lemma EntryBeyond(tree: Tree, root: TreeNode, cur: TreeNode, c: TreeNode, q: TreeNode, entry: seq<Token>, longer: seq<Token>)
    requires Shape(tree, root) && cur in tree && c in tree && q in tree && c != root && tree[c].parent == cur
    requires entry != [] && entry[..|entry| - 1] == tree[q].path
    requires tree[cur].path <= longer <= tree[c].path && entry <= longer && !(entry <= tree[cur].path)
    ensures q == cur && tree[c].key != [] && entry[|entry| - 1] == tree[c].key[0]
  {
    assert HangsOn(tree, c);
    ParentPath(tree, c);
    var p := tree[cur].path;
    if |entry| <= |p| {
      ShorterPrefix(longer, entry, p);
    }
    assert tree[q].path == longer[..|entry| - 1] == tree[c].path[..|entry| - 1];
    if |tree[q].path| == |p| {
      SamePath(tree, root, q, cur);
    } else {
      NothingWithinKey(tree, root, c, q);
    }
  }

  /** Every node whose path is a prefix of `p` is on the walk. */
  lemma PrefixIsOnWalk(tree: Tree, root: TreeNode, n: TreeNode, p: seq<Token>)
    requires Shape(tree, root) && n in tree && tree[n].path <= p
    ensures OnWalk(tree, n, p)
  {
    if n != root {
      assert HangsOn(tree, n);
    }
  }
}
