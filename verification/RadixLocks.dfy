/** What the prefix tree counts.

    Tokens of locked and of unlocked nodes, and the locks held on a node by the paths that run through it. */
module RadixLocks {
  import opened RadixTree
  import opened RadixEdits

  // ----- token totals -----

  ghost function Tokens(tree: Tree, s: set<TreeNode>): nat
    requires s <= tree.Keys
  {
    if s == {} then 0 else
      var n: TreeNode :| n in s;
      |tree[n].value| + Tokens(tree, s - {n})
  }

  lemma {:induction false} TokensRemove(tree: Tree, s: set<TreeNode>, x: TreeNode)
    requires s <= tree.Keys && x in s
    ensures Tokens(tree, s) == |tree[x].value| + Tokens(tree, s - {x})
  {
    var n: TreeNode :| n in s && Tokens(tree, s) == |tree[n].value| + Tokens(tree, s - {n});
    if n != x {
      TokensRemove(tree, s - {n}, x);
      TokensRemove(tree, s - {x}, n);
      assert s - {n} - {x} == s - {x} - {n};
    }
  }

  lemma {:induction false} TokensAgree(a: Tree, b: Tree, s: set<TreeNode>)
    requires s <= a.Keys && s <= b.Keys && (forall n :: n in s ==> |a[n].value| == |b[n].value|)
    ensures Tokens(a, s) == Tokens(b, s)
    decreases s
  {
    if s != {} {
      var n: TreeNode :| n in s;
      TokensRemove(a, s, n);
      TokensRemove(b, s, n);
      TokensAgree(a, b, s - {n});
    }
  }

  ghost function Unlocked(tree: Tree, root: TreeNode): (s: set<TreeNode>)
    ensures s <= tree.Keys
  {
    set n | n in tree && n != root && tree[n].lockRef == 0
  }

  ghost function Locked(tree: Tree, root: TreeNode): (s: set<TreeNode>)
    ensures s <= tree.Keys
  {
    set n | n in tree && n != root && tree[n].lockRef > 0
  }

  /** The two counters are the token totals of unlocked and of locked nodes. */
  ghost predicate SizesOk(tree: Tree, root: TreeNode, evictable: int, protected: int) {
    evictable == Tokens(tree, Unlocked(tree, root)) && protected == Tokens(tree, Locked(tree, root))
  }

  // ----- locks -----

  /** How many of the held locks lie on or below `n`. */
  ghost function Covering(tree: Tree, held: seq<TreeNode>, n: TreeNode): nat
    requires n in tree && forall h :: h in held ==> h in tree
  {
    if held == [] then 0 else
      (if tree[n].path <= tree[held[0]].path then 1 else 0) + Covering(tree, held[1..], n)
  }

  /** Every reference count is the number of held locks at or below the node. */
  ghost predicate Balanced(tree: Tree, root: TreeNode, held: seq<TreeNode>) {
    && (forall h :: h in held ==> h in tree)
    && forall n :: n in tree && n != root ==> tree[n].lockRef == Covering(tree, held, n)
  }

  lemma {:induction false} CoveringAgrees(a: Tree, b: Tree, held: seq<TreeNode>, n: TreeNode, m: TreeNode)
    requires n in a && m in b && forall h :: h in held ==> h in a && h in b
    requires forall h :: h in held ==> (a[n].path <= a[h].path <==> b[m].path <= b[h].path)
    ensures Covering(a, held, n) == Covering(b, held, m)
  {
    if held != [] {
      CoveringAgrees(a, b, held[1..], n, m);
    }
  }

  lemma {:induction false} CoveringNone(tree: Tree, held: seq<TreeNode>, n: TreeNode)
    requires n in tree && forall h :: h in held ==> h in tree && !(tree[n].path <= tree[h].path)
    ensures Covering(tree, held, n) == 0
  {
    if held != [] {
      CoveringNone(tree, held[1..], n);
    }
  }

  lemma {:induction false} CoveringSome(tree: Tree, held: seq<TreeNode>, n: TreeNode, h: TreeNode)
    requires n in tree && (forall h :: h in held ==> h in tree) && h in held && tree[n].path <= tree[h].path
    ensures Covering(tree, held, n) > 0
  {
    if h != held[0] {
      CoveringSome(tree, held[1..], n, h);
    }
  }

  /** A node carries at least the locks of the nodes below it. */
  lemma {:induction false} CoveringMonotone(tree: Tree, held: seq<TreeNode>, up: TreeNode, down: TreeNode)
    requires up in tree && down in tree && (forall h :: h in held ==> h in tree) && tree[up].path <= tree[down].path
    ensures Covering(tree, held, down) <= Covering(tree, held, up)
  {
    if held != [] {
      CoveringMonotone(tree, held[1..], up, down);
    }
  }

  lemma {:induction false} CoveringAppend(tree: Tree, held: seq<TreeNode>, h: TreeNode, n: TreeNode)
    requires n in tree && h in tree && forall g :: g in held ==> g in tree
    ensures Covering(tree, held + [h], n) == Covering(tree, held, n) + if tree[n].path <= tree[h].path then 1 else 0
  {
    if held == [] {
      assert Covering(tree, [h][1..], n) == 0;
    } else {
      CoveringAppend(tree, held[1..], h, n);
      assert (held + [h])[1..] == held[1..] + [h];
    }
  }

  lemma {:induction false} CoveringRemove(tree: Tree, held: seq<TreeNode>, i: nat, n: TreeNode)
    requires n in tree && i < |held| && forall g :: g in held ==> g in tree
    ensures Covering(tree, held, n) ==
            Covering(tree, held[..i] + held[i + 1..], n) + if tree[n].path <= tree[held[i]].path then 1 else 0
  {
    if i == 0 {
      assert held[..0] + held[1..] == held[1..];
    } else {
      CoveringRemove(tree, held[1..], i - 1, n);
      assert (held[..i] + held[i + 1..])[1..] == held[1..][..i - 1] + held[1..][i..];
    }
  }

  // ----- splitting, growing and pruning keep the counts -----

  lemma SplitTokens(tree: Tree, root: TreeNode, child: TreeNode, fresh': TreeNode, len: nat, s: set<TreeNode>)
    requires Splittable(tree, root, child, fresh', len) && s <= tree.Keys
    ensures Split(tree, root, child, fresh', len).Keys == tree.Keys + {fresh'}
    ensures Tokens(Split(tree, root, child, fresh', len), if child in s then s + {fresh'} else s) == Tokens(tree, s)
  {
    var tree' := Split(tree, root, child, fresh', len);
    SplitParent(tree, root, child, fresh', len);
    if child in s {
      TokensRemove(tree, s, child);
      TokensRemove(tree', s + {fresh'}, fresh');
      assert s + {fresh'} - {fresh'} == s;
      TokensRemove(tree', s, child);
      TokensAgree(tree, tree', s - {child});
    } else {
      TokensAgree(tree, tree', s);
    }
  }

  lemma SplitSizes(tree: Tree, root: TreeNode, child: TreeNode, fresh': TreeNode, len: nat, e: int, p: int)
    requires Splittable(tree, root, child, fresh', len) && SizesOk(tree, root, e, p)
    ensures SizesOk(Split(tree, root, child, fresh', len), root, e, p)
  {
    var tree' := Split(tree, root, child, fresh', len);
    SplitKeepsPaths(tree, root, child, fresh', len);
    SplitTokens(tree, root, child, fresh', len, Unlocked(tree, root));
    SplitTokens(tree, root, child, fresh', len, Locked(tree, root));
    hide Split;
    var u, l := Unlocked(tree, root), Locked(tree, root);
    assert Unlocked(tree', root) == if child in u then u + {fresh'} else u;
    assert Locked(tree', root) == if child in l then l + {fresh'} else l;
  }

  /** The new upper half is covered by exactly the locks that covered the whole node. */
  lemma SplitBalanced(tree: Tree, root: TreeNode, child: TreeNode, fresh': TreeNode, len: nat, held: seq<TreeNode>)
    requires Splittable(tree, root, child, fresh', len) && Balanced(tree, root, held)
    ensures Balanced(Split(tree, root, child, fresh', len), root, held)
  {
    var tree' := Split(tree, root, child, fresh', len);
    SplitParent(tree, root, child, fresh', len);
    SplitKeepsPaths(tree, root, child, fresh', len);
    forall h | h in held ensures tree[child].path <= tree[h].path <==> tree'[fresh'].path <= tree'[h].path {
      if tree'[fresh'].path <= tree[h].path {
        var k := |tree'[fresh'].path|;
        assert tree[h].path[..k] == tree'[fresh'].path == tree[child].path[..k];
        SharedIntoKey(tree, root, h, child, k);
      }
    }
    CoveringAgrees(tree, tree', held, child, fresh');
    hide Split, Shape;
    forall n | n in tree' && n != root ensures tree'[n].lockRef == Covering(tree', held, n) {
      if n != fresh' {
        CoveringAgrees(tree, tree', held, n, n);
      }
    }
  }

  lemma GrowSizes(tree: Tree, root: TreeNode, up: TreeNode, fresh': TreeNode, key: seq<Token>, value: seq<int>, e: int, p: int)
    requires Growable(tree, root, up, fresh', key, value) && SizesOk(tree, root, e, p)
    ensures SizesOk(Grow(tree, root, up, fresh', key, value), root, e + |value|, p)
  {
    var tree' := Grow(tree, root, up, fresh', key, value);
    GrowEntries(tree, root, up, fresh', key, value);
    var u, l := Unlocked(tree, root), Locked(tree, root);
    assert Unlocked(tree', root) == u + {fresh'};
    assert Locked(tree', root) == l;
    TokensRemove(tree', u + {fresh'}, fresh');
    assert u + {fresh'} - {fresh'} == u;
    TokensAgree(tree, tree', u);
    TokensAgree(tree, tree', l);
  }

  lemma GrowBalanced(tree: Tree, root: TreeNode, up: TreeNode, fresh': TreeNode, key: seq<Token>, value: seq<int>,
                     held: seq<TreeNode>)
    requires Growable(tree, root, up, fresh', key, value) && Balanced(tree, root, held)
    ensures Balanced(Grow(tree, root, up, fresh', key, value), root, held)
  {
    var tree' := Grow(tree, root, up, fresh', key, value);
    GrowEntries(tree, root, up, fresh', key, value);
    forall h | h in held ensures !(tree'[fresh'].path <= tree'[h].path) {
      if tree[up].path + key <= tree[h].path {
        assert tree[h].path[|tree[up].path|] == (tree[up].path + key)[|tree[up].path|] == key[0];
        Descend(tree, root, up, h);
      }
    }
    CoveringNone(tree', held, fresh');
    hide Grow, Shape;
    forall n | n in tree' && n != root ensures tree'[n].lockRef == Covering(tree', held, n) {
      if n != fresh' {
        CoveringAgrees(tree, tree', held, n, n);
      }
    }
  }

  lemma PruneSizes(tree: Tree, root: TreeNode, leaf: TreeNode, e: int, p: int)
    requires Prunable(tree, root, leaf) && SizesOk(tree, root, e, p) && tree[leaf].lockRef == 0
    ensures SizesOk(Prune(tree, root, leaf), root, e - |tree[leaf].value|, p)
  {
    var tree' := Prune(tree, root, leaf);
    PruneEntries(tree, root, leaf);
    hide Prune;
    var u, l := Unlocked(tree, root), Locked(tree, root);
    assert Unlocked(tree', root) == u - {leaf};
    assert Locked(tree', root) == l;
    TokensRemove(tree, u, leaf);
    TokensAgree(tree, tree', u - {leaf});
    TokensAgree(tree, tree', l);
  }

  lemma PruneBalanced(tree: Tree, root: TreeNode, leaf: TreeNode, held: seq<TreeNode>)
    requires Prunable(tree, root, leaf) && Balanced(tree, root, held) && tree[leaf].lockRef == 0
    ensures Balanced(Prune(tree, root, leaf), root, held)
  {
    var tree' := Prune(tree, root, leaf);
    PruneEntries(tree, root, leaf);
    hide Prune;
    if leaf in held {
      CoveringSome(tree, held, leaf, leaf);
    }
    forall n | n in tree' && n != root ensures tree'[n].lockRef == Covering(tree', held, n) {
      CoveringAgrees(tree, tree', held, n, n);
    }
  }

  // ----- locking a root path -----

  function Relock(up: bool, count: nat): nat {
    if up then count + 1 else if count > 0 then count - 1 else 0
  }

  ghost function WithLocks(tree: Tree, n: TreeNode, count: nat): Tree
    requires n in tree
  {
    tree[n := tree[n].(lockRef := count)]
  }

  /** The tree once the nodes from `node` up to, but not including, `cur` have been relocked. */
  ghost function Climbed(tree: Tree, node: TreeNode, cur: TreeNode, up: bool): Tree
    requires node in tree && cur in tree
  {
    map n | n in tree ::
      if tree[n].path <= tree[node].path && |tree[cur].path| < |tree[n].path| then
        tree[n].(lockRef := Relock(up, tree[n].lockRef))
      else tree[n]
  }

  lemma ClimbStart(tree: Tree, node: TreeNode, up: bool)
    requires node in tree
    ensures Climbed(tree, node, node, up) == tree
  {
  }

  lemma ClimbStep(tree: Tree, root: TreeNode, node: TreeNode, cur: TreeNode, up: bool)
    requires Shape(tree, root) && node in tree && cur in tree && cur != root && tree[cur].path <= tree[node].path
    ensures tree[cur].parent in tree && tree[tree[cur].parent].path <= tree[node].path
    ensures |tree[tree[cur].parent].path| < |tree[cur].path|
    ensures WithLocks(Climbed(tree, node, cur, up), cur, Relock(up, tree[cur].lockRef))
            == Climbed(tree, node, tree[cur].parent, up)
  {
    assert HangsOn(tree, cur);
    forall n | n in tree && n != cur && tree[n].path <= tree[node].path && |tree[tree[cur].parent].path| < |tree[n].path|
      ensures |tree[cur].path| < |tree[n].path|
    {
      if |tree[n].path| <= |tree[cur].path| {
        NothingWithinKey(tree, root, cur, n);
      }
    }
  }

  /** Two trees that differ in lock counts only. */
  ghost predicate SameButLocks(a: Tree, b: Tree) {
    a.Keys == b.Keys && forall n :: n in a ==> b[n] == a[n].(lockRef := b[n].lockRef)
  }

  lemma RelockedShape(a: Tree, b: Tree, root: TreeNode)
    requires SameButLocks(a, b) && Shape(a, root)
    ensures Shape(b, root)
  {
    forall n | n in b && n != root ensures HangsOn(b, n) {
      assert HangsOn(a, n);
    }
    forall n | n in b ensures ChildrenOk(b, n) {
      assert ChildrenOk(a, n);
    }
  }

  lemma RelockedSets(tree: Tree, root: TreeNode, n: TreeNode, count: nat)
    requires n in tree && n != root
    ensures var tree' := WithLocks(tree, n, count);
            var u, l := Unlocked(tree, root) - {n}, Locked(tree, root) - {n};
            && Unlocked(tree', root) == (if count == 0 then u + {n} else u)
            && Locked(tree', root) == (if count == 0 then l else l + {n})
            && Unlocked(tree, root) == (if tree[n].lockRef == 0 then u + {n} else u)
            && Locked(tree, root) == (if tree[n].lockRef == 0 then l else l + {n})
            && tree'.Keys == tree.Keys && (forall m :: m in tree ==> tree'[m].value == tree[m].value)
  {
  }

  lemma TokensWith(tree: Tree, s: set<TreeNode>, n: TreeNode)
    requires s <= tree.Keys && n in tree && n !in s
    ensures Tokens(tree, s + {n}) == Tokens(tree, s) + |tree[n].value|
  {
    TokensRemove(tree, s + {n}, n);
    assert s + {n} - {n} == s;
  }

  lemma RelockedSizes(tree: Tree, root: TreeNode, n: TreeNode, count: nat, e: int, p: int)
    requires n in tree && n != root && SizesOk(tree, root, e, p)
    ensures var size := |tree[n].value|;
            var moved := if tree[n].lockRef == 0 < count then -size else if count == 0 < tree[n].lockRef then size else 0;
            SizesOk(WithLocks(tree, n, count), root, e + moved, p - moved)
  {
    var tree' := WithLocks(tree, n, count);
    var u, l := Unlocked(tree, root) - {n}, Locked(tree, root) - {n};
    RelockedSets(tree, root, n, count);
    hide Unlocked, Locked, WithLocks, Tokens;
    TokensAgree(tree, tree', u);
    TokensAgree(tree, tree', l);
    TokensWith(tree, u, n);
    TokensWith(tree, l, n);
    TokensWith(tree', u, n);
    TokensWith(tree', l, n);
  }

  lemma WithLocksKeeps(tree: Tree, root: TreeNode, n: TreeNode, count: nat, e: int, p: int)
    requires Shape(tree, root) && n in tree && n != root && SizesOk(tree, root, e, p)
    ensures var size := |tree[n].value|;
            var moved := if tree[n].lockRef == 0 < count then -size else if count == 0 < tree[n].lockRef then size else 0;
            SizesOk(WithLocks(tree, n, count), root, e + moved, p - moved)
    ensures Shape(WithLocks(tree, n, count), root)
  {
    hide Shape, SizesOk;
    RelockedShape(tree, WithLocks(tree, n, count), root);
    RelockedSizes(tree, root, n, count, e, p);
  }

  lemma ClimbTop(tree: Tree, node: TreeNode, cur: TreeNode, up: bool)
    requires node in tree && cur in tree
    ensures Climbed(tree, node, cur, up).Keys == tree.Keys
    ensures Climbed(tree, node, cur, up)[cur] == tree[cur]
    ensures cur in WithLocks(Climbed(tree, node, cur, up), cur, Relock(up, tree[cur].lockRef))
    ensures WithLocks(Climbed(tree, node, cur, up), cur, Relock(up, tree[cur].lockRef))[cur].parent == tree[cur].parent
  {
  }

  /** Locking moves no node, so the contents stay. */
  lemma ClimbedContents(tree: Tree, node: TreeNode, root: TreeNode, up: bool)
    requires node in tree && root in tree
    ensures Contents(Climbed(tree, node, root, up)) == Contents(tree)
  {
    var tree' := Climbed(tree, node, root, up);
    forall p: seq<Token>, v: seq<int> ensures Stored(tree', p, v) <==> Stored(tree, p, v) {
      if Stored(tree, p, v) {
        var n: TreeNode :| n in tree && p <= tree[n].path && v <= tree[n].slots && |p| == |v|;
        assert n in tree' && p <= tree'[n].path && v <= tree'[n].slots;
      }
      if Stored(tree', p, v) {
        var n: TreeNode :| n in tree' && p <= tree'[n].path && v <= tree'[n].slots && |p| == |v|;
        assert n in tree && p <= tree[n].path && v <= tree[n].slots;
      }
    }
  }

  /** Locking a node's root path balances one more held lock. */
  lemma LockedBalanced(tree: Tree, root: TreeNode, node: TreeNode, held: seq<TreeNode>)
    requires Shape(tree, root) && node in tree && Balanced(tree, root, held)
    ensures Balanced(Climbed(tree, node, root, true), root, held + [node])
  {
    var tree' := Climbed(tree, node, root, true);
    forall n | n in tree' && n != root ensures tree'[n].lockRef == Covering(tree', held + [node], n) {
      NonRootHasPath(tree, root, n);
      CoveringAppend(tree, held, node, n);
      CoveringAgrees(tree, tree', held + [node], n, n);
    }
  }

  /** Unlocking the root path of a held node balances one held lock fewer. */
  lemma UnlockedBalanced(tree: Tree, root: TreeNode, held: seq<TreeNode>, i: nat)
    requires Shape(tree, root) && i < |held| && Balanced(tree, root, held)
    ensures Balanced(Climbed(tree, held[i], root, false), root, held[..i] + held[i + 1..])
  {
    var tree' := Climbed(tree, held[i], root, false);
    var held' := held[..i] + held[i + 1..];
    forall n | n in tree' && n != root ensures tree'[n].lockRef == Covering(tree', held', n) {
      NonRootHasPath(tree, root, n);
      CoveringRemove(tree, held, i, n);
      CoveringAgrees(tree, tree', held', n, n);
    }
  }

  // ----- eviction always finds an unlocked leaf -----

  /** Below an unlocked node everything is unlocked. */
  lemma UnlockedBelow(tree: Tree, root: TreeNode, held: seq<TreeNode>, n: TreeNode, below: TreeNode)
    requires Shape(tree, root) && Balanced(tree, root, held) && n in Unlocked(tree, root) && below in tree
    requires tree[n].path <= tree[below].path
    ensures below in Unlocked(tree, root)
  {
    NonRootHasPath(tree, root, n);
    NonRootHasPath(tree, root, below);
    CoveringMonotone(tree, held, n, below);
  }

  lemma AnyOf<T>(s: set<T>) returns (t: T)
    requires s != {}
    ensures t in s
  {
    t :| t in s;
  }

  /** While an unlocked node is left, some unlocked node is a leaf. */
  lemma {:induction false} UnlockedLeaf(tree: Tree, root: TreeNode, held: seq<TreeNode>, n: TreeNode, rest: set<TreeNode>)
      returns (leaf: TreeNode)
    requires Shape(tree, root) && Balanced(tree, root, held) && n in Unlocked(tree, root)
    requires rest <= tree.Keys && forall m :: m in tree && tree[n].path <= tree[m].path && m != n ==> m in rest
    ensures leaf in Unlocked(tree, root) && tree[leaf].children == map[]
    decreases rest
  {
    var keys := tree[n].children.Keys;
    if keys == {} {
      assert tree[n].children == map[];
      return n;
    }
    var t := AnyOf(keys);
    assert ChildrenOk(tree, n);
    var c := tree[n].children[t];
    NonRootHasPath(tree, root, n);
    NonRootHasPath(tree, root, c);
    assert c != root;
    assert HangsOn(tree, c);
    UnlockedBelow(tree, root, held, n, c);
    forall m | m in tree && tree[c].path <= tree[m].path && m != c ensures m in rest - {c} {
      assert |tree[n].path| < |tree[m].path|;
    }
    leaf := UnlockedLeaf(tree, root, held, c, rest - {c});
  }
}
