/** The prefix cache: a mutable tree of token sequences with locks and eviction. */
module PrefixCache {
  // `tree` is a ghost copy of the node fields together with each node's path, and `held` lists the nodes whose
  // root paths callers have locked.  Contents(tree) is what the cache means.

  import opened Ordering
  import opened Outcomes
  import opened RadixTree
  import opened RadixEdits
  import opened RadixLocks
  import opened RadixLeaves

  /** The length of the longest common prefix. */
  method KeyMatch(key0: seq<Token>, key1: seq<Token>) returns (i: nat)
    ensures i <= |key0| && i <= |key1| && key0[..i] == key1[..i]
    ensures i < |key0| && i < |key1| ==> key0[i] != key1[i]
  {
    i := 0;
    while i < |key0| && i < |key1| && key0[i] == key1[i]
      invariant i <= |key0| && i <= |key1| && key0[..i] == key1[..i]
    {
      i := i + 1;
    }
  }

  /** Takes a least recently used leaf out of the list. */
  method PopOldest(leaves: seq<TreeNode>) returns (x: TreeNode, rest: seq<TreeNode>)
    requires leaves != []
    ensures exists i :: 0 <= i < |leaves| && x == leaves[i] && rest == leaves[..i] + leaves[i + 1..]
    ensures forall y :: y in leaves ==> x.lastAccess <= y.lastAccess
  {
    var best, i := 0, 1;
    while i < |leaves|
      invariant best < i <= |leaves|
      invariant forall k :: 0 <= k < i ==> leaves[best].lastAccess <= leaves[k].lastAccess
    {
      if leaves[i].lastAccess < leaves[best].lastAccess {
        best := i;
      }
      i := i + 1;
    }
    x, rest := leaves[best], leaves[..best] + leaves[best + 1..];
  }

  /** Keys and values cut at `len`, and what a walk has matched so far. */
  ghost predicate Walked(tree: Tree, cur: TreeNode, key: seq<Token>, rest: seq<Token>) {
    cur in tree && tree[cur].path + rest == key
  }

  lemma WalkedWhole(tree: Tree, root: TreeNode, cur: TreeNode, key: seq<Token>, rest: seq<Token>, len: nat)
    requires Shape(tree, root) && Walked(tree, cur, key, rest) && rest != [] && rest[0] in tree[cur].children
    requires var c := tree[cur].children[rest[0]];
             c in tree && len == |tree[c].key| <= |rest| && tree[c].key[..len] == rest[..len]
    ensures Walked(tree, tree[cur].children[rest[0]], key, rest[len..])
    ensures tree[tree[cur].children[rest[0]]].slots == tree[cur].slots + tree[tree[cur].children[rest[0]]].value
  {
    FollowChild(tree, root, cur, rest);
    assert rest == rest[..len] + rest[len..];
  }

  lemma WalkedSoFar(tree: Tree, cur: TreeNode, key: seq<Token>, rest: seq<Token>)
    requires Walked(tree, cur, key, rest)
    ensures tree[cur].path == key[..|key| - |rest|]
  {
  }

  lemma WalkedPath(before: Tree, tree: Tree, cur: TreeNode, next: TreeNode, key: seq<Token>, rest: seq<Token>, len: nat)
    requires Walked(before, cur, key, rest) && len <= |rest| && Walked(tree, next, key, rest[len..])
    ensures tree[next].path == before[cur].path + rest[..len]
  {
    assert rest == rest[..len] + rest[len..];
    assert tree[next].path == key[..|key| - |rest[len..]|];
    assert before[cur].path + rest[..len] == key[..|key| - |rest[len..]|];
  }

  lemma WalkedPart(tree: Tree, root: TreeNode, cur: TreeNode, key: seq<Token>, rest: seq<Token>, len: nat, fresh': TreeNode)
    requires Shape(tree, root) && Walked(tree, cur, key, rest) && rest != [] && rest[0] in tree[cur].children
    requires var c := tree[cur].children[rest[0]];
             && Splittable(tree, root, c, fresh', len) && len <= |rest| && tree[c].key[..len] == rest[..len]
             && (len < |rest| ==> tree[c].key[len] != rest[len])
    ensures var c := tree[cur].children[rest[0]];
            var tree' := Split(tree, root, c, fresh', len);
            && Walked(tree', fresh', key, rest[len..])
            && tree'[fresh'].slots == tree[cur].slots + tree[c].value[..len]
            && (rest[len..] == [] || rest[len] !in tree'[fresh'].children)
  {
    FollowChild(tree, root, cur, rest);
    assert rest == rest[..len] + rest[len..];
  }

  /** The nodes of `before` are still there, with their paths, positions and locks. */
  ghost predicate Keeps(before: Tree, tree: Tree) {
    forall n :: n in before ==>
      n in tree && tree[n].path == before[n].path && tree[n].slots == before[n].slots && tree[n].lockRef == before[n].lockRef
  }

  lemma SplitKeepsAll(tree: Tree, root: TreeNode, child: TreeNode, fresh': TreeNode, len: nat, e: int, p: int, held: seq<TreeNode>)
    requires Splittable(tree, root, child, fresh', len) && SizesOk(tree, root, e, p)
    ensures var tree' := Split(tree, root, child, fresh', len);
            && Shape(tree', root) && SizesOk(tree', root, e, p) && Contents(tree') == Contents(tree)
            && Keeps(tree, tree') && (Balanced(tree, root, held) ==> Balanced(tree', root, held))
            && tree'.Keys == tree.Keys + {fresh'}
  {
    hide Split, Balanced, SizesOk, Contents;
    SplitShape(tree, root, child, fresh', len);
    SplitSizes(tree, root, child, fresh', len, e, p);
    SplitContents(tree, root, child, fresh', len);
    SplitKeepsPaths(tree, root, child, fresh', len);
    if Balanced(tree, root, held) {
      SplitBalanced(tree, root, child, fresh', len, held);
    }
  }

  lemma GrowKeepsAll(tree: Tree, root: TreeNode, up: TreeNode, fresh': TreeNode, key: seq<Token>, value: seq<int>,
                     e: int, p: int, held: seq<TreeNode>)
    requires Growable(tree, root, up, fresh', key, value) && SizesOk(tree, root, e, p)
    ensures var tree' := Grow(tree, root, up, fresh', key, value);
            && Shape(tree', root) && SizesOk(tree', root, e + |value|, p)
            && Contents(tree') == Contents(tree) + Prefixes(tree[up].path + key, tree[up].slots + value)
            && Keeps(tree, tree') && (Balanced(tree, root, held) ==> Balanced(tree', root, held))
  {
    GrowEntries(tree, root, up, fresh', key, value);
    hide Grow, Balanced, SizesOk, Contents, Prefixes;
    GrowShape(tree, root, up, fresh', key, value);
    GrowSizes(tree, root, up, fresh', key, value, e, p);
    GrowContents(tree, root, up, fresh', key, value);
    if Balanced(tree, root, held) {
      GrowBalanced(tree, root, up, fresh', key, value, held);
    }
  }

  /** Every prefix of a node's path is cached already. */
  lemma PathIsCached(tree: Tree, n: TreeNode)
    requires n in tree
    ensures Contents(tree) + Prefixes(tree[n].path, tree[n].slots) == Contents(tree)
  {
    forall e: (seq<Token>, seq<int>) | e in Prefixes(tree[n].path, tree[n].slots) ensures e in Contents(tree) {
      assert Stored(tree, e.0, e.1);
    }
  }

  ghost predicate Mirrored(n: TreeNode, v: View)
    reads n`key, n`value, n`parent, n`children, n`lockRef
  {
    n.key == v.key && n.value == v.value && n.parent == v.parent && n.children == v.children && n.lockRef == v.lockRef
  }

  /** Cuts a node in two: the new node takes the first `len` tokens and the node's place below `up`. */
  method Divide(child: TreeNode, up: TreeNode, len: nat, now: int) returns (node: TreeNode)
    requires child.parent == up != child && 0 < len < |child.key| == |child.value|
    modifies child`key, child`value, child`parent, up`children
    ensures fresh(node) && node.parent == up && node.lockRef == child.lockRef && node.lastAccess == now
    ensures node.key == old(child.key[..len]) && node.value == old(child.value[..len])
    ensures node.children == map[old(child.key[len]) := child]
    ensures child.key == old(child.key[len..]) && child.value == old(child.value[len..]) && child.parent == node
    ensures up.children == old(up.children)[old(child.key[0]) := node]
  {
    node := new TreeNode(child.key[..len], child.value[..len], child.parent, child.lockRef, now);
    node.children := map[child.key[len] := child];
    up.children := up.children[child.key[0] := node];
    child.parent := node;
    child.key, child.value := child.key[len..], child.value[len..];
  }

  // ----- access times -----

  ghost function Times(tree: Tree): map<TreeNode, int>
    reads tree.Keys`lastAccess
  {
    map n | n in tree :: n.lastAccess
  }

  lemma TimesAre(tree: Tree)
    ensures Times(tree).Keys == tree.Keys && forall n :: n in tree ==> Times(tree)[n] == n.lastAccess
  {
  }

  lemma LeafTimes(was: map<TreeNode, int>, before: Tree, leaf: TreeNode, now: int)
    requires was.Keys == before.Keys && (forall n :: n in before ==> n.lastAccess == was[n]) && leaf.lastAccess == now
    ensures Times(before) == was && forall tree: Tree :: tree.Keys == before.Keys + {leaf} ==> Times(tree) == was[leaf := now]
  {
  }

  /** A walk along `p` took place at `now`: new nodes and the nodes it passed have that time, the others theirs. */
  ghost predicate Refreshed(before: Tree, was: map<TreeNode, int>, later: map<TreeNode, int>, p: seq<Token>, now: int) {
    && was.Keys == before.Keys && before.Keys <= later.Keys
    && forall n :: n in later ==> later[n] == if n in before && !OnWalk(before, n, p) then was[n] else now
  }

  /** Only the child and new nodes got a new time. */
  ghost predicate Touched(was: map<TreeNode, int>, later: map<TreeNode, int>, child: TreeNode, now: int) {
    && child in was && was.Keys <= later.Keys
    && forall n :: n in later ==> later[n] == if n in was && n != child then was[n] else now
  }

  lemma ChildTouched(was: map<TreeNode, int>, later: map<TreeNode, int>, child: TreeNode, now: int)
    requires child in was && later == was[child := now]
    ensures Touched(was, later, child, now)
  {
  }

  lemma SplitTouched(was: map<TreeNode, int>, touched: map<TreeNode, int>, later: map<TreeNode, int>, child: TreeNode,
                     node: TreeNode, now: int)
    requires child in was && touched == was[child := now] && node !in was && later == touched[node := now]
    ensures Touched(was, later, child, now)
  {
  }

  lemma WalkTouches(tree: Tree, root: TreeNode, was: map<TreeNode, int>, middle: map<TreeNode, int>, later: map<TreeNode, int>,
                    cur: TreeNode, rest: seq<Token>, len: nat, now: int)
    requires Shape(tree, root) && cur in tree && Refreshed(tree, was, middle, tree[cur].path, now)
    requires middle.Keys == tree.Keys && rest != [] && rest[0] in tree[cur].children
    requires var c := tree[cur].children[rest[0]];
             c in tree && 0 < len <= |tree[c].key| && len <= |rest| && tree[c].key[..len] == rest[..len]
    requires Touched(middle, later, tree[cur].children[rest[0]], now)
    ensures Refreshed(tree, was, later, tree[cur].path + rest[..len], now)
  {
    hide OnWalk, Shape;
    forall n | n in tree
      ensures OnWalk(tree, n, tree[cur].path + rest[..len]) <==> OnWalk(tree, n, tree[cur].path) || n == tree[cur].children[rest[0]]
    {
      WalkGoesOn(tree, root, cur, rest, len, n);
    }
  }

  /** A walk begins at the root. */
  lemma RootTouched(tree: Tree, root: TreeNode, was: map<TreeNode, int>, later: map<TreeNode, int>, now: int)
    requires Shape(tree, root) && was.Keys == tree.Keys && later == was[root := now]
    ensures Refreshed(tree, was, later, [], now)
  {
    forall n | n in tree ensures OnWalk(tree, n, []) <==> n == root {
      WalkBegins(tree, root, n);
    }
  }

  /** A fresh leaf has the time of the walk, too. */
  lemma LeafIsNew(before: Tree, was: map<TreeNode, int>, walked: map<TreeNode, int>, later: map<TreeNode, int>, leaf: TreeNode,
                  p: seq<Token>, now: int)
    requires Refreshed(before, was, walked, p, now) && (later == walked || (leaf !in walked && later == walked[leaf := now]))
    ensures Refreshed(before, was, later, p, now)
  {
  }

  lemma RefreshedFromRoot(before: Tree, root: TreeNode, was: map<TreeNode, int>, middle: map<TreeNode, int>,
                          later: map<TreeNode, int>, p: seq<Token>, now: int)
    requires Shape(before, root) && was.Keys == before.Keys && middle == was[root := now] && Refreshed(before, middle, later, p, now)
    ensures Refreshed(before, was, later, p, now)
  {
    assert OnWalk(before, root, p);
  }

  /** A node that ends within an inserted key was matched, or is new. */
  lemma InsertedAreRefreshed(before: Tree, after: Tree, root: TreeNode, was: map<TreeNode, int>, later: map<TreeNode, int>,
                             node: TreeNode, key: seq<Token>, values: seq<int>, matched: nat, now: int)
    requires Shape(before, root) && later.Keys == after.Keys && |values| == |key| && Inserted(before, after, node, key, values, matched)
    requires Keeps(before, after) && Refreshed(before, was, later, key[..matched], now)
    ensures forall n :: n in after && after[n].path <= key ==> later[n] == now
  {
    hide Refreshed, OnWalk;
    forall n | n in after && after[n].path <= key ensures later[n] == now {
      if n in before {
        WithinLongest(before, root, n, key, matched);
      }
      RefreshedNode(before, was, later, root, n, key[..matched], now);
    }
  }

  lemma WithinLongest(before: Tree, root: TreeNode, n: TreeNode, key: seq<Token>, matched: nat)
    requires Shape(before, root) && n in before && before[n].path <= key && Longest(Contents(before), key, matched)
    ensures before[n].path <= key[..matched]
  {
    SlotsMatchPath(before, root, n);
    var path := before[n].path;
    assert Stored(before, path, before[n].slots);
    assert (path, before[n].slots) in Contents(before) && key[..|path|] == path;
  }

  lemma RefreshedNode(before: Tree, was: map<TreeNode, int>, later: map<TreeNode, int>, root: TreeNode, n: TreeNode, p: seq<Token>, now: int)
    requires Shape(before, root) && Refreshed(before, was, later, p, now) && n in later && (n in before ==> before[n].path <= p)
    ensures later[n] == now
  {
    if n in before {
      PrefixIsOnWalk(before, root, n, p);
    }
  }

  /** After a walk every node that ends within the matched tokens has the time of the walk. */
  lemma MatchedAreRefreshed(before: Tree, after: Tree, root: TreeNode, was: map<TreeNode, int>, later: map<TreeNode, int>,
                            p: seq<Token>, now: int)
    requires Shape(before, root) && Keeps(before, after) && later.Keys == after.Keys && Refreshed(before, was, later, p, now)
    ensures forall n :: n in after && after[n].path <= p ==> later[n] == now
  {
    forall n | n in after && after[n].path <= p ensures later[n] == now {
      if n in before {
        PrefixIsOnWalk(before, root, n, p);
      }
    }
  }

  lemma StartAt(tree: Tree, root: TreeNode, key: seq<Token>)
    requires Shape(tree, root)
    ensures root in tree && Walked(tree, root, key, key) && tree[root].slots == [] && tree[root].path == []
    ensures forall held :: Refines(tree, tree, root, held)
  {
  }

  /** What walking keeps: nothing is stored or forgotten, and old nodes keep their paths and locks. */
  ghost predicate Refines(a: Tree, b: Tree, root: TreeNode, held: seq<TreeNode>) {
    Keeps(a, b) && Contents(a) == Contents(b) && (Balanced(a, root, held) ==> Balanced(b, root, held))
  }

  lemma KeepsItself(tree: Tree)
    ensures Keeps(tree, tree)
  {
  }

  lemma RefinesTransitive(a: Tree, b: Tree, c: Tree, root: TreeNode, held: seq<TreeNode>)
    requires Refines(a, b, root, held) && Refines(b, c, root, held)
    ensures Refines(a, c, root, held)
  {
  }

  lemma RefinesThenKeeps(a: Tree, b: Tree, c: Tree, root: TreeNode, held: seq<TreeNode>)
    requires Refines(a, b, root, held) && Keeps(b, c) && (Balanced(b, root, held) ==> Balanced(c, root, held))
    ensures Keeps(a, c) && (Balanced(a, root, held) ==> Balanced(c, root, held)) && Contents(a) == Contents(b)
  {
  }

  /** `node` now ends the key, whose first `matched` tokens were cached before and whose rest has the given values. */
  ghost predicate Inserted(before: Tree, after: Tree, node: TreeNode, key: seq<Token>, values: seq<int>, matched: nat)
    requires |values| == |key|
  {
    && node in after && after[node].path == key && |after[node].slots| == |key|
    && Longest(Contents(before), key, matched)
    && (key[..matched], after[node].slots[..matched]) in Contents(before)
    && after[node].slots[matched..] == values[matched..]
    && Contents(after) == Contents(before) + Prefixes(key, after[node].slots)
  }

  lemma InsertEnds(before: Tree, walked: Tree, after: Tree, root: TreeNode, held: seq<TreeNode>,
                   cur: TreeNode, node: TreeNode, key: seq<Token>, values: seq<int>, matched: nat)
    requires |values| == |key| && Shape(walked, root) && Refines(before, walked, root, held)
    requires matched <= |key| && Walked(walked, cur, key, key[matched..]) && |walked[cur].slots| == matched
    requires matched == |key| || key[matched] !in walked[cur].children
    requires node in after && after[node].path == walked[cur].path + key[matched..]
    requires after[node].slots == walked[cur].slots + values[matched..]
    requires Contents(after) == Contents(walked) + Prefixes(after[node].path, after[node].slots)
    ensures Inserted(before, after, node, key, values, matched)
  {
    hide Shape, Contents, Longest, Prefixes, Keeps, Balanced;
    MatchEnds(walked, root, cur, key, key[matched..]);
    assert after[node].slots[..matched] == walked[cur].slots;
    assert after[node].slots[matched..] == values[matched..];
  }

  lemma MatchEnds(tree: Tree, root: TreeNode, node: TreeNode, key: seq<Token>, rest: seq<Token>)
    requires Shape(tree, root) && Walked(tree, node, key, rest)
    requires rest == [] || rest[0] !in tree[node].children
    ensures var value := tree[node].slots;
            && Longest(Contents(tree), key, |value|) && tree[node].path == key[..|value|]
            && (key[..|value|], value) in Contents(tree)
  {
    SlotsMatchPath(tree, root, node);
    Exhausted(tree, root, node, key);
    assert tree[node].path == key[..|tree[node].slots|];
  }

  lemma PruneKeepsAll(tree: Tree, root: TreeNode, leaf: TreeNode, e: int, p: int, held: seq<TreeNode>)
    requires Prunable(tree, root, leaf) && SizesOk(tree, root, e, p) && tree[leaf].lockRef == 0
    ensures var tree' := Prune(tree, root, leaf);
            && Shape(tree', root) && SizesOk(tree', root, e - |tree[leaf].value|, p) && Contents(tree') <= Contents(tree)
            && (Balanced(tree, root, held) ==> Balanced(tree', root, held))
  {
    hide Prune, Balanced, SizesOk, Contents;
    PruneShape(tree, root, leaf);
    PruneSizes(tree, root, leaf, e, p);
    PruneContents(tree, root, leaf);
    if Balanced(tree, root, held) {
      PruneBalanced(tree, root, leaf, held);
    }
  }

  /** `a` is what eviction left of `before`: no locked node is gone, and what is left has not moved. */
  ghost predicate LeftOf(a: Tree, before: Tree) {
    && (forall n :: n in a ==> n in before && a[n] == before[n].(children := a[n].children))
    && (forall n :: n in before && before[n].lockRef > 0 ==> n in a)
  }

  /** Without the last node it deleted, eviction would not have reached `count`. */
  ghost predicate StopsInTime(before: Tree, after: Tree, freed: int, count: int) {
    before.Keys == after.Keys || exists n :: n in before && n !in after && freed - |before[n].value| < count
  }

  /** Least recently used first: whatever went was accessed no later than any leaf that could have gone from
      the start and is still there. */
  ghost predicate OldestFirst(before: Tree, after: Tree, root: TreeNode)
    reads before.Keys`lastAccess
  {
    forall m :: m in after && m in Unlocked(before, root) && IsLeaf(before, m) ==>
      IsLeaf(after, m) && forall n :: n in before && n !in after ==> n.lastAccess <= m.lastAccess
  }

  lemma OldestStart(tree: Tree, root: TreeNode)
    ensures OldestFirst(tree, tree, root)
  {
  }

  /** Deleting the oldest leaf of the list keeps that order. */
  lemma OldestGoes(before: Tree, tree: Tree, root: TreeNode, leaves: seq<TreeNode>, i: nat)
    requires OldestFirst(before, tree, root) && LeftOf(tree, before) && Evictable(tree, root, leaves)
    requires i < |leaves| && Prunable(tree, root, leaves[i])
    requires forall y :: y in leaves ==> leaves[i].lastAccess <= y.lastAccess
    ensures OldestFirst(before, Prune(tree, root, leaves[i]), root)
  {
    var leaf := leaves[i];
    var tree' := Prune(tree, root, leaf);
    PruneEntries(tree, root, leaf);
    hide Prune, Prunable;
    forall m | m in tree' && m in Unlocked(before, root) && IsLeaf(before, m)
      ensures IsLeaf(tree', m) && forall n :: n in before && n !in tree' ==> n.lastAccess <= m.lastAccess
    {
      assert m in tree && tree[m].lockRef == 0;
      assert IsLeaf(tree, m) && m in leaves;
    }
  }

  /** Every node on the root path of a held node survives eviction, where it was. */
  lemma HeldPathsSurvive(before: Tree, after: Tree, root: TreeNode, held: seq<TreeNode>, h: TreeNode, n: TreeNode)
    requires Shape(before, root) && Shape(after, root) && Balanced(before, root, held) && LeftOf(after, before)
    requires h in held && n in before && before[n].path <= before[h].path
    ensures n in after && after[n].path == before[n].path && after[n].slots == before[n].slots
    ensures after[n].key == before[n].key && after[n].value == before[n].value && after[n].parent == before[n].parent
  {
    if n != root {
      CoveringSome(before, held, n, h);
    }
  }

  /** The list holds leaves only, each once, and every leaf that may be evicted. */
  ghost predicate Evictable(tree: Tree, root: TreeNode, leaves: seq<TreeNode>) {
    && (forall i :: 0 <= i < |leaves| ==> IsLeaf(tree, leaves[i]))
    && (forall i, j :: 0 <= i < j < |leaves| ==> leaves[i] != leaves[j])
    && (forall n :: IsLeaf(tree, n) && n in Unlocked(tree, root) ==> n in leaves)
  }

  /** Taking a locked leaf out of the list. */
  lemma SkipLocked(tree: Tree, root: TreeNode, leaves: seq<TreeNode>, i: nat)
    requires Evictable(tree, root, leaves) && i < |leaves| && leaves[i] !in Unlocked(tree, root)
    ensures Evictable(tree, root, leaves[..i] + leaves[i + 1..])
  {
    var rest := leaves[..i] + leaves[i + 1..];
    forall n | IsLeaf(tree, n) && n in Unlocked(tree, root) ensures n in rest {
      var j :| 0 <= j < |leaves| && leaves[j] == n;
      assert n == if j < i then rest[j] else rest[j - 1];
    }
  }

  /** Deleting a leaf may make a leaf of its parent. */
  lemma DropLeaf(tree: Tree, root: TreeNode, leaves: seq<TreeNode>, i: nat)
    requires Evictable(tree, root, leaves) && i < |leaves| && Prunable(tree, root, leaves[i])
    ensures tree[leaves[i]].parent in Prune(tree, root, leaves[i])
    ensures var tree' := Prune(tree, root, leaves[i]);
            var rest := leaves[..i] + leaves[i + 1..];
            var up := tree[leaves[i]].parent;
            Evictable(tree', root, if tree'[up].children == map[] then rest + [up] else rest)
  {
    var leaf := leaves[i];
    var tree' := Prune(tree, root, leaf);
    var rest := leaves[..i] + leaves[i + 1..];
    var up := tree[leaf].parent;
    PruneEntries(tree, root, leaf);
    hide Prune;
    var leaves' := if tree'[up].children == map[] then rest + [up] else rest;
    assert !IsLeaf(tree, up);
    forall n | IsLeaf(tree', n) && n in Unlocked(tree', root) ensures n in leaves' {
      if n != up {
        assert IsLeaf(tree, n);
        var j :| 0 <= j < |leaves| && leaves[j] == n;
        assert n == if j < i then rest[j] else rest[j - 1];
      }
    }
    forall j | 0 <= j < |leaves'| ensures IsLeaf(tree', leaves'[j]) {
      if j < |rest| {
        assert IsLeaf(tree, rest[j]) && rest[j] != leaf;
      }
    }
  }

  lemma DropKeepsLeft(tree: Tree, root: TreeNode, leaf: TreeNode, before: Tree)
    requires Prunable(tree, root, leaf) && LeftOf(tree, before) && tree[leaf].lockRef == 0
    ensures LeftOf(Prune(tree, root, leaf), before)
  {
    PruneEntries(tree, root, leaf);
  }

  lemma LeftStart(tree: Tree, count: int)
    ensures LeftOf(tree, tree) && StopsInTime(tree, tree, 0, count)
  {
  }

  lemma ListedLeaf(tree: Tree, root: TreeNode, leaves: seq<TreeNode>, i: nat)
    requires Evictable(tree, root, leaves) && i < |leaves|
    ensures IsLeaf(tree, leaves[i])
  {
  }

  function Min(a: int, b: int): int {
    if a < b then a else b
  }

  /** With no leaf left to evict, nothing evictable is left. */
  lemma NothingLeft(tree: Tree, root: TreeNode, held: seq<TreeNode>, leaves: seq<TreeNode>, e: int, p: int)
    requires Shape(tree, root) && Balanced(tree, root, held) && SizesOk(tree, root, e, p)
    requires Evictable(tree, root, leaves) && (leaves == [] || IsLeaf(tree, root))
    ensures e == 0
  {
    var u := Unlocked(tree, root);
    if u != {} {
      var n := AnyOf(u);
      NonRootHasPath(tree, root, n);
      if leaves == [] {
        var leaf := UnlockedLeaf(tree, root, held, n, tree.Keys);
        assert IsLeaf(tree, leaf);
      } else {
        Descend(tree, root, root, n);
      }
      assert false;
    }
  }

  /** Hangs a fresh, unlocked node below `up`. */
  method Attach(up: TreeNode, key: seq<Token>, value: seq<int>, now: int) returns (leaf: TreeNode)
    requires key != []
    modifies up`children
    ensures fresh(leaf) && leaf.key == key && leaf.value == value && leaf.parent == up && leaf.children == map[]
    ensures leaf.lockRef == 0 && leaf.lastAccess == now && up.children == old(up.children)[key[0] := leaf]
  {
    leaf := new TreeNode(key, value, up, 0, now);
    up.children := up.children[key[0] := leaf];
  }

  /** The nodes' fields are those of the snapshot. */
  ghost predicate Mirrors(t: Tree)
    reads t.Keys`key, t.Keys`value, t.Keys`parent, t.Keys`children, t.Keys`lockRef
  {
    forall n :: n in t ==> Mirrored(n, t[n])
  }

  twostate lemma StillMirrors(before: Tree, new after: Tree, new touched: set<TreeNode>)
    requires old(Mirrors(before)) && forall n :: n in touched ==> n in after && Mirrored(n, after[n])
    requires forall n :: n in after && n !in touched ==>
               n in before && after[n] == before[n] && (old(Mirrored(n, before[n])) ==> Mirrored(n, before[n]))
    ensures Mirrors(after)
  {
    hide Mirrored;
  }

  /** The held locks once one lock on `node` is given back, if there is one. */
  lemma Release(tree: Tree, root: TreeNode, held: seq<TreeNode>, node: TreeNode) returns (held': seq<TreeNode>)
    requires Shape(tree, root) && node in tree
    ensures multiset(held') == multiset(held) - multiset{node}
    ensures Balanced(tree, root, held) && node in held ==> Balanced(Climbed(tree, node, root, false), root, held')
  {
    hide Shape, Balanced, Climbed;
    held' := held;
    if node in held {
      var i := FindIn(node, held);
      RemoveAtTakesOne(held, i);
      held' := RemoveAt(held, i);
      if Balanced(tree, root, held) {
        UnlockedBalanced(tree, root, held, i);
      }
    }
  }

  lemma LastInTime(before: Tree, tree: Tree, after: Tree, leaf: TreeNode, freed: int, count: int)
    requires LeftOf(tree, before) && leaf in tree && leaf !in after && freed - |tree[leaf].value| < count
    ensures StopsInTime(before, after, freed, count)
  {
  }

  lemma DropAll(tree: Tree, root: TreeNode, leaves: seq<TreeNode>, i: nat, before: Tree)
    requires Evictable(tree, root, leaves) && i < |leaves| && Prunable(tree, root, leaves[i])
    requires LeftOf(tree, before) && tree[leaves[i]].lockRef == 0
    ensures var leaf := leaves[i];
            var tree' := Prune(tree, root, leaf);
            var rest := leaves[..i] + leaves[i + 1..];
            && tree'.Keys == tree.Keys - {leaf} && LeftOf(tree', before)
            && tree[leaf].parent in tree'
            && Evictable(tree', root, if IsLeaf(tree', tree[leaf].parent) then rest + [tree[leaf].parent] else rest)
  {
    hide Shape, Evictable, LeftOf;
    DropLeaf(tree, root, leaves, i);
    DropKeepsLeft(tree, root, leaves[i], before);
    PruneEntries(tree, root, leaves[i]);
  }

  class RadixCache {
    const root: TreeNode
    var evictableSize: int
    var protectedSize: int
    ghost var tree: Tree
    ghost var held: seq<TreeNode>

    ghost predicate Valid()
      reads `tree, `evictableSize, `protectedSize
      reads tree.Keys`key, tree.Keys`value, tree.Keys`parent, tree.Keys`children, tree.Keys`lockRef
    {
      Shape(tree, root) && Mirrors(tree) && SizesOk(tree, root, evictableSize, protectedSize)
    }

    constructor ()
      ensures Valid() && Balanced(tree, root, held) && held == [] && fresh(tree.Keys)
      ensures Contents(tree) == Prefixes([], []) && evictableSize == 0 && protectedSize == 0
    {
      root := new TreeNode([], [], null, 1, 0);
      evictableSize, protectedSize, held := 0, 0, [];
      tree := map[];
      new;
      tree := map[root := View([], [], null, map[], 1, [], [])];
      assert Shape(tree, root);
      assert Unlocked(tree, root) == {} && Locked(tree, root) == {};
      assert Stored(tree, [], []) by {
        assert root in tree && [] <= tree[root].path;
      }
    }

    /** What validity means for one node. */
    lemma Reflects(n: TreeNode)
      requires Valid() && n in tree
      ensures Shape(tree, root) && Mirrored(n, tree[n])
    {
    }

    lemma RootIsThere()
      requires Valid()
      ensures Shape(tree, root) && root in tree && Mirrored(root, tree[root])
    {
    }

    lemma ParentIsThere(n: TreeNode)
      requires Valid() && n in tree && n != root
      ensures n.parent in tree && n.parent == tree[n].parent
    {
      assert HangsOn(tree, n) && Mirrored(n, tree[n]);
    }

    lemma Sizes()
      requires Valid()
      ensures Shape(tree, root) && SizesOk(tree, root, evictableSize, protectedSize)
    {
    }

    /** A walk begins: the root is accessed. */
    method TouchRoot(now: int)
      requires Valid()
      modifies root`lastAccess
      ensures Valid() && root.lastAccess == now && Times(tree) == old(Times(tree))[root := now]
    {
      hide RadixCache.Valid;
      RootIsThere();
      root.lastAccess := now;
    }

    method SplitNode(child: TreeNode, len: nat, now: int) returns (node: TreeNode)
      requires Valid() && child in tree && child != root && 0 < len < |child.key|
      modifies `tree, child`key, child`value, child`parent, (set up | up in tree && up == child.parent)`children
      ensures Valid() && fresh(node) && node !in old(tree) && Splittable(old(tree), root, child, node, len)
      ensures tree.Keys == old(tree.Keys) + {node} && Mirrored(node, tree[node]) && node.value == old(child.value[..len])
      ensures tree == Split(old(tree), root, child, node, len)
      ensures Refines(old(tree), tree, root, held) && node.lastAccess == now
    {
      hide SizesOk, Balanced, Contents, Keeps, Mirrors;
      assert HangsOn(tree, child);
      hide Shape;
      ghost var before := tree;
      Reflects(child);
      var up: TreeNode := child.parent;
      Reflects(up);
      node := Divide(child, up, len, now);
      assert Splittable(before, root, child, node, len);
      SplitKeepsAll(before, root, child, node, len, evictableSize, protectedSize, held);
      SplitEntries(before, root, child, node, len);
      hide Split, Splittable;
      tree := Split(before, root, child, node, len);
      StillMirrors(before, tree, {node, child, up});
    }

    /** One step of a walk: on to the child, or to its upper half when the key leaves it. */
    method Advance(node: TreeNode, ghost key: seq<Token>, rest: seq<Token>, now: int) returns (len: nat, next: TreeNode, whole: bool)
      requires Valid() && node in tree && Walked(tree, node, key, rest) && rest != [] && rest[0] in node.children
      modifies `tree, tree.Keys
      ensures Valid() && Refines(old(tree), tree, root, held) && fresh(tree.Keys - old(tree.Keys))
      ensures 0 < len <= |rest| && next in tree && Walked(tree, next, key, rest[len..]) && next != root && Mirrored(next, tree[next])
      ensures tree[next].slots == old(tree)[node].slots + next.value && |next.value| == len
      ensures if whole then tree == old(tree) else rest[len..] == [] || rest[len] !in next.children
      ensures var child := old(tree)[node].children[rest[0]];
              && child in old(tree) && len <= |old(tree)[child].key| && old(tree)[child].key[..len] == rest[..len]
              && Touched(old(Times(tree)), Times(tree), child, now)
    {
      hide RadixCache.Valid, SizesOk, Balanced, Contents, Split, Shape, Refines, Touched, Walked;
      Reflects(node);
      FollowChild(tree, root, node, rest);
      var child := node.children[rest[0]];
      Reflects(child);
      ghost var was := Times(tree);
      child.lastAccess := now;
      ghost var touched := Times(tree);
      assert touched == was[child := now];
      ChildTouched(was, touched, child, now);
      len := KeyMatch(child.key, rest);
      if len >= |child.key| {
        WalkedWhole(tree, root, node, key, rest, len);
        StartAt(tree, root, key);
        next, whole := child, true;
      } else {
        ghost var before := tree;
        next := SplitNode(child, len, now);
        whole := false;
        WalkedPart(before, root, node, key, rest, len, next);
        LeafTimes(touched, before, next, now);
        SplitTouched(was, touched, Times(tree), child, next, now);
      }
    }

    method MatchPrefix(key: seq<Token>, now: int) returns (value: seq<int>, node: TreeNode)
      requires Valid()
      modifies `tree, tree.Keys
      ensures Valid() && Refines(old(tree), tree, root, held) && fresh(tree.Keys - old(tree.Keys))
      ensures Longest(old(Contents(tree)), key, |value|) && (key[..|value|], value) in old(Contents(tree))
      ensures node in tree && tree[node].path == key[..|value|] && tree[node].slots == value
      ensures if key == [] then tree == old(tree) && Times(tree) == old(Times(tree))
              else Refreshed(old(tree), old(Times(tree)), Times(tree), key[..|value|], now)
      ensures key != [] ==> forall n :: n in tree && tree[n].path <= key[..|value|] ==> n.lastAccess == now
    {
      hide SizesOk, Balanced, Contents, Longest, Split, Shape, HangsOn, Keeps, Refreshed, Touched, Times;
      value, node := [], root;
      var rest := key;
      StartAt(tree, root, key);
      TimesAre(tree);
      if key != [] {
        TouchRoot(now);
        RootTouched(tree, root, old(Times(tree)), Times(tree), now);
      }
      while |rest| > 0 && rest[0] in node.children
        invariant Valid() && Refines(old(tree), tree, root, held) && fresh(tree.Keys - old(tree.Keys))
        invariant node in tree && Walked(tree, node, key, rest) && value == tree[node].slots && tree == old(tree)
        invariant if key == [] then Times(tree) == old(Times(tree))
                  else Refreshed(old(tree), old(Times(tree)), Times(tree), tree[node].path, now)
        decreases |rest|
      {
        ghost var before, was, from := tree, Times(tree), node;
        TimesAre(tree);
        var len, next, whole := Advance(node, key, rest, now);
        RefinesTransitive(old(tree), before, tree, root, held);
        WalkTouches(before, root, old(Times(tree)), was, Times(tree), from, rest, len, now);
        WalkedPath(before, tree, from, next, key, rest, len);
        value := value + next.value;
        node, rest := next, rest[len..];
        if !whole {
          break;
        }
      }
      assert Mirrored(node, tree[node]);
      MatchEnds(tree, root, node, key, rest);
      if key != [] {
        TimesAre(tree);
        MatchedAreRefreshed(old(tree), tree, root, old(Times(tree)), Times(tree), key[..|value|], now);
      }
    }

    /** Hangs a new leaf below `up`. */
    method AddLeaf(up: TreeNode, key: seq<Token>, value: seq<int>, now: int) returns (leaf: TreeNode)
      requires Valid() && up in tree && key != [] && |value| == |key| && key[0] !in up.children
      modifies `tree, `evictableSize, up`children
      ensures Valid() && fresh(leaf) && tree.Keys == old(tree.Keys) + {leaf} && Keeps(old(tree), tree)
      ensures tree[leaf].path == old(tree)[up].path + key && tree[leaf].slots == old(tree)[up].slots + value
      ensures Contents(tree) == old(Contents(tree)) + Prefixes(tree[leaf].path, tree[leaf].slots)
      ensures Balanced(old(tree), root, held) ==> Balanced(tree, root, held)
      ensures evictableSize == old(evictableSize) + |value| && leaf.lastAccess == now
    {
      hide SizesOk, Balanced, Contents, Keeps, Shape, Prefixes, Mirrors;
      ghost var before := tree;
      Reflects(up);
      leaf := Attach(up, key, value, now);
      evictableSize := evictableSize + |value|;
      assert Growable(before, root, up, leaf, key, value);
      GrowEntries(before, root, up, leaf, key, value);
      GrowKeepsAll(before, root, up, leaf, key, value, evictableSize - |value|, protectedSize, held);
      hide Grow, Growable;
      tree := Grow(before, root, up, leaf, key, value);
      StillMirrors(before, tree, {leaf, up});
    }

    /** Hangs what is left of a key below `cur`, if anything is. */
    method Extend(cur: TreeNode, rest: seq<Token>, value: seq<int>, now: int) returns (node: TreeNode)
      requires Valid() && cur in tree && |value| == |rest| && (rest == [] || rest[0] !in cur.children)
      modifies `tree, `evictableSize, cur`children
      ensures Valid() && Keeps(old(tree), tree) && node in tree && fresh(tree.Keys - old(tree.Keys))
      ensures tree[node].path == old(tree)[cur].path + rest && tree[node].slots == old(tree)[cur].slots + value
      ensures Contents(tree) == old(Contents(tree)) + Prefixes(tree[node].path, tree[node].slots)
      ensures Balanced(old(tree), root, held) ==> Balanced(tree, root, held)
      ensures evictableSize == old(evictableSize) + |rest|
      ensures Times(tree) == old(Times(tree)) || (node !in old(tree) && Times(tree) == old(Times(tree))[node := now])
    {
      hide RadixCache.Valid, Balanced, Contents, Shape, Prefixes, Keeps, Times;
      Reflects(cur);
      KeepsItself(tree);
      node := cur;
      ghost var was, before := Times(tree), tree;
      TimesAre(before);
      if |rest| > 0 {
        node := AddLeaf(cur, rest, value, now);
        LeafTimes(was, before, node, now);
      } else {
        PathIsCached(tree, node);
        assert tree[cur].path == tree[cur].path + rest && tree[cur].slots == tree[cur].slots + value;
      }
    }

    /** The walk of an insertion: ends where the cached part of the key ends, splitting a node if need be. */
    method Locate(key: seq<Token>, values: seq<int>, now: int)
        returns (matched: nat, node: TreeNode, rest: seq<Token>, value: seq<int>)
      requires Valid() && |values| == |key| && root.lastAccess == now
      modifies `tree, tree.Keys
      ensures Valid() && Refines(old(tree), tree, root, held) && fresh(tree.Keys - old(tree.Keys))
      ensures node in tree && Walked(tree, node, key, rest) && |tree[node].slots| == matched <= |key|
      ensures rest == key[matched..] && value == values[matched..]
      ensures Mirrored(node, tree[node]) && (rest == [] || rest[0] !in node.children)
      ensures Refreshed(old(tree), old(Times(tree)), Times(tree), key[..matched], now)
    {
      hide RadixCache.Valid, Refines, Walked, Shape, Refreshed, Touched, Times;
      value, rest, node, matched := values, key, root, 0;
      RootIsThere();
      StartAt(tree, root, key);
      TimesAre(tree);
      assert Times(tree)[root := now] == Times(tree);
      RootTouched(tree, root, Times(tree), Times(tree), now);
      while |rest| > 0 && rest[0] in node.children
        invariant Valid() && Refines(old(tree), tree, root, held) && fresh(tree.Keys - old(tree.Keys))
        invariant node in tree && Walked(tree, node, key, rest) && |tree[node].slots| == matched <= |key|
        invariant rest == key[matched..] && value == values[matched..]
        invariant Refreshed(old(tree), old(Times(tree)), Times(tree), tree[node].path, now)
        invariant tree == old(tree) || rest == [] || (Mirrored(node, tree[node]) && rest[0] !in node.children)
        decreases |rest|
      {
        ghost var before, was, from := tree, Times(tree), node;
        Reflects(node);
        TimesAre(tree);
        var len, next, whole := Advance(node, key, rest, now);
        RefinesTransitive(old(tree), before, tree, root, held);
        WalkTouches(before, root, old(Times(tree)), was, Times(tree), from, rest, len, now);
        WalkedPath(before, tree, from, next, key, rest, len);
        matched := matched + len;
        rest, value := rest[len..], value[len..];
        node := next;
      }
      Reflects(node);
      WalkedSoFar(tree, node, key, rest);
    }

    /** The rest of an insertion, after the root was accessed: the walk, and the new leaf. */
    method InsertBelow(key: seq<Token>, values: seq<int>, now: int) returns (matched: nat, node: TreeNode)
      requires Valid() && |values| == |key| && root.lastAccess == now
      modifies `tree, `evictableSize, tree.Keys
      ensures Valid() && Keeps(old(tree), tree) && fresh(tree.Keys - old(tree.Keys))
      ensures Balanced(old(tree), root, held) ==> Balanced(tree, root, held)
      ensures matched <= |key| && evictableSize == old(evictableSize) + |key| - matched
      ensures Inserted(old(tree), tree, node, key, values, matched)
      ensures Refreshed(old(tree), old(Times(tree)), Times(tree), key[..matched], now)
    {
      hide RadixCache.Valid, Balanced, Contents, Shape, Refines, Prefixes, Keeps, Inserted, Walked, Refreshed, Times;
      var cur, rest, value;
      matched, cur, rest, value := Locate(key, values, now);
      ghost var walked, times := tree, Times(tree);
      TimesAre(tree);
      Reflects(cur);
      node := Extend(cur, rest, value, now);
      RefinesThenKeeps(old(tree), walked, tree, root, held);
      InsertEnds(old(tree), walked, tree, root, held, cur, node, key, values, matched);
      LeafIsNew(old(tree), old(Times(tree)), times, Times(tree), node, key[..matched], now);
    }

    method Insert(key: seq<Token>, given: Option<seq<int>>, now: int) returns (matched: nat, last: Option<TreeNode>)
      requires Valid() && (given.Some? ==> |given.value| == |key|)
      modifies `tree, `evictableSize, tree.Keys
      ensures Valid() && Keeps(old(tree), tree) && fresh(tree.Keys - old(tree.Keys))
      ensures Balanced(old(tree), root, held) ==> Balanced(tree, root, held)
      ensures matched <= |key| && evictableSize == old(evictableSize) + |key| - matched
      ensures key == [] <==> last.None?
      ensures last.Some? ==>
                Inserted(old(tree), tree, last.value, key, if given.Some? then given.value else key, matched)
      ensures last.None? ==> matched == 0 && tree == old(tree)
      ensures Refreshed(old(tree), old(Times(tree)), Times(tree), key[..matched], now)
      ensures forall n :: n in tree && tree[n].path <= key ==> n.lastAccess == now
    {
      hide RadixCache.Valid, Balanced, Contents, Shape, Prefixes, Keeps, Inserted, Refreshed, Times;
      var values := if given.Some? then given.value else key;
      RootIsThere();
      TimesAre(tree);
      TouchRoot(now);
      RootTouched(tree, root, old(Times(tree)), Times(tree), now);
      TimesAre(tree);
      if key == [] {
        KeepsItself(tree);
        MatchedAreRefreshed(tree, tree, root, old(Times(tree)), Times(tree), [], now);
        return 0, None;
      }
      ghost var was := Times(tree);
      var node;
      matched, node := InsertBelow(key, values, now);
      TimesAre(tree);
      RefreshedFromRoot(old(tree), root, old(Times(tree)), was, Times(tree), key[..matched], now);
      InsertedAreRefreshed(old(tree), tree, root, old(Times(tree)), Times(tree), node, key, values, matched, now);
      last := Some(node);
    }

    method CollectLeaves() returns (leaves: seq<TreeNode>)
      requires Valid()
      ensures Evictable(tree, root, leaves)
      ensures forall n :: IsLeaf(tree, n) <==> n in leaves
    {
      hide SizesOk, Shape, Walking;
      leaves := [];
      var stack := [root];
      ghost var done: set<TreeNode> := {};
      WalkStart(tree, root);
      while |stack| > 0
        invariant Walking(tree, stack, done)
        invariant forall i :: 0 <= i < |leaves| ==> leaves[i] in done && IsLeaf(tree, leaves[i])
        invariant forall i, j :: 0 <= i < j < |leaves| ==> leaves[i] != leaves[j]
        invariant forall n :: n in done && IsLeaf(tree, n) ==> n in leaves
        decreases tree.Keys - done
      {
        var cur := stack[|stack| - 1];
        WalkTop(tree, stack, done);
        assert Mirrored(cur, tree[cur]);
        var kids, keys := ListChildren(cur.children);
        WalkStep(tree, root, stack, done, kids, keys);
        stack := stack[..|stack| - 1];
        assert |cur.children| == 0 <==> IsLeaf(tree, cur);
        if |cur.children| == 0 {
          leaves := leaves + [cur];
          assert cur.children.Keys == {};
          ListsAll(cur.children, kids, keys);
          assert stack + kids == stack;
        } else {
          stack := stack + kids;
        }
        done := done + {cur};
      }
      WalkEnds(tree, done);
    }

    method DeleteLeaf(leaf: TreeNode)
      requires Valid() && IsLeaf(tree, leaf) && leaf != root && leaf.lockRef == 0
      modifies `tree, `evictableSize, tree.Keys`children
      ensures Valid() && Prunable(old(tree), root, leaf) && tree == Prune(old(tree), root, leaf)
      ensures evictableSize == old(evictableSize) - |leaf.value|
      ensures Balanced(old(tree), root, held) ==> Balanced(tree, root, held)
      ensures Contents(tree) <= old(Contents(tree))
    {
      hide SizesOk, Balanced, Contents, Mirrors;
      assert HangsOn(tree, leaf);
      hide Shape;
      ghost var before := tree;
      Reflects(leaf);
      var up: TreeNode := leaf.parent;
      Reflects(up);
      PruneKeepsAll(before, root, leaf, evictableSize, protectedSize, held);
      PruneEntries(before, root, leaf);
      hide Prune;
      ghost var first: Token := leaf.key[0];
      assert first in up.children && up.children[first] == leaf;
      var k: Token :| k in up.children && up.children[k] == leaf;
      assert ChildrenOk(before, up) && k == leaf.key[0];
      up.children := up.children - {k};
      evictableSize := evictableSize - |leaf.key|;
      tree := Prune(before, root, leaf);
      StillMirrors(before, tree, {up});
    }

    /** Deletes the oldest leaf of the list, and lists its parent if that became a leaf. */
    method Drop(x: TreeNode, rest: seq<TreeNode>, ghost leaves: seq<TreeNode>, ghost i: nat, ghost before: Tree)
      returns (left: seq<TreeNode>)
      requires Valid() && Evictable(tree, root, leaves) && i < |leaves| && IsLeaf(tree, x)
      requires x == leaves[i] && rest == leaves[..i] + leaves[i + 1..] && x != root && x.lockRef == 0
      requires LeftOf(tree, before) && OldestFirst(before, tree, root)
      requires forall y :: y in leaves ==> x.lastAccess <= y.lastAccess
      modifies `tree, `evictableSize, tree.Keys`children
      ensures Valid() && tree.Keys == old(tree.Keys) - {x} && evictableSize == old(evictableSize) - |x.value|
      ensures Evictable(tree, root, left) && LeftOf(tree, before) && OldestFirst(before, tree, root)
      ensures Contents(tree) <= old(Contents(tree)) && (Balanced(old(tree), root, held) ==> Balanced(tree, root, held))
      ensures x in old(tree) && |old(tree)[x].value| == |x.value|
    {
      hide RadixCache.Valid, Balanced, Contents, Evictable, LeftOf, Shape, Prune, Prunable, OldestFirst;
      ghost var whole := tree;
      Reflects(x);
      ParentIsThere(x);
      DeleteLeaf(x);
      DropAll(whole, root, leaves, i, before);
      OldestGoes(before, whole, root, leaves, i);
      left := rest;
      var up: TreeNode := x.parent;
      Reflects(up);
      assert |up.children| == 0 <==> IsLeaf(tree, up);
      if |up.children| == 0 {
        left := left + [up];
      }
    }

    method Evict(count: int)
      requires Valid()
      modifies `tree, `evictableSize, tree.Keys`children
      ensures Valid() && LeftOf(tree, old(tree)) && Contents(tree) <= old(Contents(tree))
      ensures Balanced(old(tree), root, held) ==>
                Balanced(tree, root, held) && old(evictableSize) - evictableSize >= Min(count, old(evictableSize))
      ensures StopsInTime(old(tree), tree, old(evictableSize) - evictableSize, count)
      ensures OldestFirst(old(tree), tree, root)
    {
      hide RadixCache.Valid, Balanced, Contents, Evictable, LeftOf, Shape, Prune, Prunable, StopsInTime, OldestFirst;
      var leaves := CollectLeaves();
      var evicted := 0;
      LeftStart(tree, count);
      OldestStart(tree, root);
      while evicted < count && |leaves| > 0
        invariant Valid() && Evictable(tree, root, leaves) && LeftOf(tree, old(tree))
        invariant tree.Keys <= old(tree.Keys) && Contents(tree) <= old(Contents(tree))
        invariant OldestFirst(old(tree), tree, root)
        invariant Balanced(old(tree), root, held) ==> Balanced(tree, root, held)
        invariant evicted + evictableSize == old(evictableSize) && evicted >= 0
        invariant StopsInTime(old(tree), tree, evicted, count)
        decreases tree.Keys, |leaves|
      {
        var x, rest := PopOldest(leaves);
        ghost var i :| 0 <= i < |leaves| && x == leaves[i] && rest == leaves[..i] + leaves[i + 1..];
        ListedLeaf(tree, root, leaves, i);
        Reflects(x);
        if x == root {
          break;
        }
        if x.lockRef > 0 {
          SkipLocked(tree, root, leaves, i);
          leaves := rest;
          continue;
        }
        evicted := evicted + |x.value|;
        ghost var before := tree;
        leaves := Drop(x, rest, leaves, i, old(tree));
        LastInTime(old(tree), before, tree, x, evicted, count);
      }
      if evicted < count && Balanced(tree, root, held) {
        Sizes();
        NothingLeft(tree, root, held, leaves, evictableSize, protectedSize);
      }
    }

    /** One more lock on one node. */
    method LockNode(cur: TreeNode) returns (moved: int)
      requires Valid() && cur in tree && cur != root
      modifies `tree, `evictableSize, `protectedSize, cur`lockRef
      ensures Valid() && tree == WithLocks(old(tree), cur, Relock(true, old(tree)[cur].lockRef))
      ensures moved == evictableSize - old(evictableSize) == old(protectedSize) - protectedSize
    {
      hide Shape, SizesOk, Mirrors;
      Reflects(cur);
      ghost var before := tree;
      WithLocksKeeps(before, root, cur, cur.lockRef + 1, evictableSize, protectedSize);
      moved := 0;
      if cur.lockRef == 0 {
        evictableSize := evictableSize - |cur.value|;
        protectedSize := protectedSize + |cur.value|;
        moved := -|cur.value|;
      }
      cur.lockRef := cur.lockRef + 1;
      tree := WithLocks(before, cur, cur.lockRef);
      StillMirrors(before, tree, {cur});
    }

    /** One lock fewer on one node, if it has any. */
    method UnlockNode(cur: TreeNode) returns (moved: int)
      requires Valid() && cur in tree && cur != root
      modifies `tree, `evictableSize, `protectedSize, cur`lockRef
      ensures Valid() && tree == WithLocks(old(tree), cur, Relock(false, old(tree)[cur].lockRef))
      ensures moved == evictableSize - old(evictableSize) == old(protectedSize) - protectedSize
    {
      hide Shape, SizesOk, Mirrors;
      Reflects(cur);
      ghost var before := tree;
      WithLocksKeeps(before, root, cur, Relock(false, cur.lockRef), evictableSize, protectedSize);
      moved := 0;
      if cur.lockRef == 1 {
        evictableSize := evictableSize + |cur.value|;
        protectedSize := protectedSize - |cur.value|;
        moved := |cur.value|;
      }
      if cur.lockRef > 0 {
        cur.lockRef := cur.lockRef - 1;
      }
      tree := WithLocks(before, cur, cur.lockRef);
      StillMirrors(before, tree, {cur});
    }

    method IncreaseLockRef(node: TreeNode) returns (delta: int)
      requires Valid() && node in tree
      modifies `tree, `evictableSize, `protectedSize, `held, tree.Keys`lockRef
      ensures Valid() && tree == Climbed(old(tree), node, root, true) && held == old(held) + [node]
      ensures delta == evictableSize - old(evictableSize) == old(protectedSize) - protectedSize
      ensures Contents(tree) == old(Contents(tree))
      ensures old(Balanced(tree, root, held)) ==> Balanced(tree, root, held)
    {
      hide RadixCache.Valid, Balanced, Climbed, Shape, WithLocks, Contents;
      delta := 0;
      var cur := node;
      ghost var before := tree;
      RootIsThere();
      ClimbStart(tree, node, true);
      ClimbedContents(tree, node, root, true);
      while cur != root
        invariant Valid() && cur in before && before[cur].path <= before[node].path
        invariant tree == Climbed(before, node, cur, true)
        invariant delta == evictableSize - old(evictableSize) == old(protectedSize) - protectedSize
        invariant held == old(held)
        decreases |before[cur].path|
      {
        ClimbStep(before, root, node, cur, true);
        ClimbTop(before, node, cur, true);
        var moved := LockNode(cur);
        delta := delta + moved;
        Reflects(cur);
        cur := cur.parent;
      }
      if Balanced(before, root, held) {
        LockedBalanced(before, root, node, held);
      }
      held := held + [node];
    }

    /** Unlocking a root path.  Matching an earlier lock, it keeps the counts balanced. */
    method DecreaseLockRef(node: TreeNode) returns (delta: int)
      requires Valid() && node in tree
      modifies `tree, `evictableSize, `protectedSize, `held, tree.Keys`lockRef
      ensures Valid() && tree == Climbed(old(tree), node, root, false)
      ensures delta == evictableSize - old(evictableSize) == old(protectedSize) - protectedSize
      ensures Contents(tree) == old(Contents(tree))
      ensures multiset(held) == multiset(old(held)) - multiset{node}
      ensures old(Balanced(tree, root, held)) && node in old(held) ==> Balanced(tree, root, held)
    {
      hide RadixCache.Valid, Balanced, Climbed, Shape, WithLocks, Contents;
      delta := 0;
      var cur := node;
      ghost var before := tree;
      RootIsThere();
      ClimbStart(tree, node, false);
      ClimbedContents(tree, node, root, false);
      while cur != root
        invariant Valid() && cur in before && before[cur].path <= before[node].path
        invariant tree == Climbed(before, node, cur, false)
        invariant delta == evictableSize - old(evictableSize) == old(protectedSize) - protectedSize
        invariant held == old(held)
        decreases |before[cur].path|
      {
        ClimbStep(before, root, node, cur, false);
        ClimbTop(before, node, cur, false);
        var moved := UnlockNode(cur);
        delta := delta + moved;
        Reflects(cur);
        cur := cur.parent;
      }
      held := Release(before, root, held, node);
    }
  }
}
