/** Listing the leaves of the prefix tree.

    The walk is depth first over an explicit stack of nodes.  Every node has been visited or is
    at or below exactly one entry of the stack, and no entry is above another; so the list is complete
    and has no repetition. */
module RadixLeaves {
  import opened RadixTree
  import opened RadixLocks

  /** `s` lists the children, each with its key in `keys`. */
  ghost predicate Lists(children: map<Token, TreeNode>, s: seq<TreeNode>, keys: seq<Token>) {
    && |keys| == |s| && (forall i :: 0 <= i < |s| ==> keys[i] in children && children[keys[i]] == s[i])
    && (forall i, j :: 0 <= i < j < |keys| ==> keys[i] != keys[j])
    && (forall t :: t in children ==> t in keys)
  }

  lemma ListsAll(children: map<Token, TreeNode>, s: seq<TreeNode>, keys: seq<Token>)
    requires Lists(children, s, keys)
    ensures s == [] <==> children.Keys == {}
  {
    if s != [] {
      assert keys[0] in children.Keys;
    } else {
      assert forall t :: t in children.Keys ==> t in keys;
    }
  }

  /** The children in some order. */
  method ListChildren(children: map<Token, TreeNode>) returns (s: seq<TreeNode>, ghost keys: seq<Token>)
    ensures Lists(children, s, keys)
    ensures forall c :: c in s ==> c in children.Values
    ensures forall t :: t in children ==> children[t] in s
  {
    var todo := children.Keys;
    s, keys := [], [];
    while todo != {}
      invariant todo <= children.Keys && forall t :: t in children ==> t in todo || t in keys
      invariant forall t :: t in keys ==> t !in todo
      invariant |keys| == |s| && (forall i :: 0 <= i < |s| ==> keys[i] in children && children[keys[i]] == s[i])
      invariant forall i, j :: 0 <= i < j < |keys| ==> keys[i] != keys[j]
      decreases todo
    {
      ghost var any := AnyOf(todo);
      var t: Token :| t in todo;
      todo := todo - {t};
      s, keys := s + [children[t]], keys + [t];
    }
  }

  ghost predicate IsLeaf(tree: Tree, n: TreeNode) {
    n in tree && tree[n].children == map[]
  }

  ghost predicate Below(tree: Tree, up: TreeNode, n: TreeNode) {
    up in tree && n in tree && tree[up].path <= tree[n].path
  }

  /** What the depth-first walk keeps: every node is done or below exactly one stack entry. */
  ghost predicate Walking(tree: Tree, stack: seq<TreeNode>, done: set<TreeNode>) {
    && done <= tree.Keys && (forall i :: 0 <= i < |stack| ==> stack[i] in tree)
    && (forall i, n :: 0 <= i < |stack| && n in done ==> !Below(tree, stack[i], n))
    && (forall i, j :: 0 <= i < |stack| && 0 <= j < |stack| && i != j ==> !Below(tree, stack[i], stack[j]))
    && (forall n :: n in tree && n !in done ==> exists i :: 0 <= i < |stack| && Below(tree, stack[i], n))
  }

  lemma RootAbove(tree: Tree, root: TreeNode)
    requires Shape(tree, root)
    ensures forall n :: n in tree ==> Below(tree, root, n)
  {
    assert tree[root].path == [];
  }

  lemma WalkStart(tree: Tree, root: TreeNode)
    requires Shape(tree, root)
    ensures Walking(tree, [root], {})
  {
    RootAbove(tree, root);
    hide Below, Shape;
    assert [root][0] == root && root in tree;
  }

  lemma Kid(tree: Tree, root: TreeNode, cur: TreeNode, kids: seq<TreeNode>, keys: seq<Token>, i: nat)
    requires Shape(tree, root) && cur in tree && Lists(tree[cur].children, kids, keys) && i < |kids|
    ensures kids[i] in tree && tree[kids[i]].path == tree[cur].path + tree[kids[i]].key
    ensures tree[kids[i]].key != [] && tree[kids[i]].key[0] == keys[i]
    ensures !Below(tree, kids[i], cur) && Below(tree, cur, kids[i])
  {
    FollowChild(tree, root, cur, [keys[i]]);
  }

  lemma Comparable(a: seq<Token>, b: seq<Token>, c: seq<Token>)
    ensures a <= c && b <= c ==> a <= b || b <= a
  {
    if a <= c && b <= c {
      if |a| <= |b| {
        assert a == c[..|a|] == b[..|a|];
      } else {
        assert b == c[..|b|] == a[..|b|];
      }
    }
  }

  lemma Diverge(c: seq<Token>, k: seq<Token>, m: seq<Token>)
    requires k != [] && m != [] && k[0] != m[0]
    ensures !(c + k <= c + m)
  {
    assert (c + k)[|c|] == k[0] && (c + m)[|c|] == m[0];
  }

  /** What is apart from a node is apart from its children. */
  lemma ApartFromKid(tree: Tree, root: TreeNode, cur: TreeNode, kids: seq<TreeNode>, keys: seq<Token>, k: nat, other: TreeNode)
    requires Shape(tree, root) && cur in tree && Lists(tree[cur].children, kids, keys) && k < |kids|
    requires other in tree && !Below(tree, other, cur) && !Below(tree, cur, other)
    ensures !Below(tree, other, kids[k]) && !Below(tree, kids[k], other)
  {
    Kid(tree, root, cur, kids, keys, k);
    Comparable(tree[other].path, tree[cur].path, tree[kids[k]].path);
  }

  lemma KidsApart(tree: Tree, root: TreeNode, cur: TreeNode, kids: seq<TreeNode>, keys: seq<Token>, j: nat, k: nat)
    requires Shape(tree, root) && cur in tree && Lists(tree[cur].children, kids, keys)
    requires j < |kids| && k < |kids| && j != k
    ensures !Below(tree, kids[j], kids[k])
  {
    Kid(tree, root, cur, kids, keys, j);
    Kid(tree, root, cur, kids, keys, k);
    assert keys[j] != keys[k];
    Diverge(tree[cur].path, tree[kids[j]].key, tree[kids[k]].key);
  }

  lemma WalkApart(tree: Tree, root: TreeNode, stack: seq<TreeNode>, done: set<TreeNode>,
                  kids: seq<TreeNode>, keys: seq<Token>, i: nat, j: nat)
    requires Shape(tree, root) && Walking(tree, stack, done) && stack != []
    requires Lists(tree[stack[|stack| - 1]].children, kids, keys)
    requires i < |stack| - 1 + |kids| && j < |stack| - 1 + |kids| && i != j
    ensures !Below(tree, (stack[..|stack| - 1] + kids)[i], (stack[..|stack| - 1] + kids)[j])
  {
    hide Shape, Below, Lists;
    var last := |stack| - 1;
    var cur := stack[last];
    if i < last && j < last {
      assert !Below(tree, stack[i], stack[j]);
    } else if i < last {
      assert !Below(tree, stack[i], stack[last]) && !Below(tree, stack[last], stack[i]);
      ApartFromKid(tree, root, cur, kids, keys, j - last, stack[i]);
    } else if j < last {
      assert !Below(tree, stack[j], stack[last]) && !Below(tree, stack[last], stack[j]);
      ApartFromKid(tree, root, cur, kids, keys, i - last, stack[j]);
    } else {
      KidsApart(tree, root, cur, kids, keys, i - last, j - last);
    }
  }

  /** What lies strictly below a node lies below one of its children. */
  lemma KidAbove(tree: Tree, root: TreeNode, cur: TreeNode, kids: seq<TreeNode>, keys: seq<Token>, n: TreeNode) returns (k: nat)
    requires Shape(tree, root) && cur in tree && Lists(tree[cur].children, kids, keys)
    requires Below(tree, cur, n) && n != cur
    ensures k < |kids| && Below(tree, kids[k], n)
  {
    if tree[cur].path == tree[n].path {
      SamePath(tree, root, cur, n);
    }
    Descend(tree, root, cur, n);
    k :| 0 <= k < |keys| && keys[k] == tree[n].path[|tree[cur].path|];
  }

  lemma WalkCovers(tree: Tree, root: TreeNode, stack: seq<TreeNode>, done: set<TreeNode>,
                   kids: seq<TreeNode>, keys: seq<Token>, n: TreeNode)
    requires Shape(tree, root) && Walking(tree, stack, done) && stack != []
    requires Lists(tree[stack[|stack| - 1]].children, kids, keys)
    requires n in tree && n !in done && n != stack[|stack| - 1]
    ensures var stack' := stack[..|stack| - 1] + kids;
            exists i :: 0 <= i < |stack'| && Below(tree, stack'[i], n)
  {
    hide Shape, Lists, Below;
    var last := |stack| - 1;
    var cur := stack[last];
    var stack' := stack[..last] + kids;
    var i :| 0 <= i < |stack| && Below(tree, stack[i], n);
    if i < last {
      assert Below(tree, stack'[i], n);
    } else {
      var k := KidAbove(tree, root, cur, kids, keys, n);
      assert stack'[last + k] == kids[k];
    }
  }

  lemma BelowTransitive(tree: Tree, a: TreeNode, b: TreeNode, c: TreeNode)
    requires Below(tree, a, b) && Below(tree, b, c)
    ensures Below(tree, a, c)
  {
  }

  lemma WalkSkipsDone(tree: Tree, root: TreeNode, stack: seq<TreeNode>, done: set<TreeNode>,
                      kids: seq<TreeNode>, keys: seq<Token>, i: nat, n: TreeNode)
    requires Shape(tree, root) && Walking(tree, stack, done) && stack != []
    requires Lists(tree[stack[|stack| - 1]].children, kids, keys)
    requires i < |stack| - 1 + |kids| && n in done + {stack[|stack| - 1]}
    ensures !Below(tree, (stack[..|stack| - 1] + kids)[i], n)
  {
    hide Shape, Below, Lists;
    var last := |stack| - 1;
    if i < last {
      assert n in done ==> !Below(tree, stack[i], n);
      assert !Below(tree, stack[i], stack[last]);
    } else {
      Kid(tree, root, stack[last], kids, keys, i - last);
      if n in done && Below(tree, kids[i - last], n) {
        BelowTransitive(tree, stack[last], kids[i - last], n);
      }
    }
  }

  /** One step of the walk: the last entry is replaced by its children. */
  lemma WalkStep(tree: Tree, root: TreeNode, stack: seq<TreeNode>, done: set<TreeNode>, kids: seq<TreeNode>, keys: seq<Token>)
    requires Shape(tree, root) && Walking(tree, stack, done) && stack != []
    requires Lists(tree[stack[|stack| - 1]].children, kids, keys)
    ensures stack[|stack| - 1] !in done
    ensures Walking(tree, stack[..|stack| - 1] + kids, done + {stack[|stack| - 1]})
  {
    var last := |stack| - 1;
    var cur := stack[last];
    var stack', done' := stack[..last] + kids, done + {cur};
    assert cur in done ==> !Below(tree, stack[last], cur);
    hide Shape, Below, Lists;
    forall i | 0 <= i < |stack'| ensures stack'[i] in tree {
      if i >= last {
        Kid(tree, root, cur, kids, keys, i - last);
      }
    }
    forall i, n | 0 <= i < |stack'| && n in done' ensures !Below(tree, stack'[i], n) {
      WalkSkipsDone(tree, root, stack, done, kids, keys, i, n);
    }
    forall i, j | 0 <= i < |stack'| && 0 <= j < |stack'| && i != j ensures !Below(tree, stack'[i], stack'[j]) {
      WalkApart(tree, root, stack, done, kids, keys, i, j);
    }
    forall n | n in tree && n !in done' ensures exists i :: 0 <= i < |stack'| && Below(tree, stack'[i], n) {
      WalkCovers(tree, root, stack, done, kids, keys, n);
    }
  }

  lemma WalkTop(tree: Tree, stack: seq<TreeNode>, done: set<TreeNode>)
    requires Walking(tree, stack, done) && stack != []
    ensures stack[|stack| - 1] in tree && done <= tree.Keys
  {
  }

  lemma WalkEnds(tree: Tree, done: set<TreeNode>)
    requires Walking(tree, [], done)
    ensures done == tree.Keys
  {
  }
}
