/** Eviction after a walk: what was just matched outlives what was not. */
module RecentlyUsed {
  import opened Outcomes
  import opened RadixTree
  import opened RadixLocks
  import opened RadixLeaves
  import opened PrefixCache

  /** Matching a key and evicting then: while an unlocked leaf of an earlier time is left, no node that ends
      within the matched tokens is gone. */
  method MatchThenEvict(cache: RadixCache, key: seq<Token>, now: int, count: int)
    returns (value: seq<int>, ghost matched: Tree)
    requires cache.Valid() && key != []
    modifies cache`tree, cache`evictableSize, cache.tree.Keys
    ensures cache.Valid() && Contents(matched) == old(Contents(cache.tree)) && LeftOf(cache.tree, matched)
    ensures Longest(Contents(matched), key, |value|) && (key[..|value|], value) in Contents(matched)
    ensures StillThere(cache.tree, matched, cache.root, key[..|value|], now)
  {
    hide RadixCache.Valid, Contents, Longest, Shape, LeftOf, Refreshed;
    var node;
    value, node := cache.MatchPrefix(key, now);
    matched := cache.tree;
    cache.Evict(count);
  }

  /** If some unlocked leaf of an earlier time is left, then so is every node that ends within the tokens. */
  ghost predicate StillThere(tree: Tree, matched: Tree, root: TreeNode, tokens: seq<Token>, now: int)
    reads matched.Keys`lastAccess
  {
    (exists m :: m in tree && m in Unlocked(matched, root) && IsLeaf(matched, m) && m.lastAccess < now) ==>
      forall n :: n in matched && matched[n].path <= tokens ==> n in tree
  }

  // ----- a run -----

  /** The tree holds just two tokens, each at a node of its own. */
  ghost predicate TwoTokens(tree: Tree, root: TreeNode, a: TreeNode, b: TreeNode) {
    && Shape(tree, root) && a in tree && b in tree && tree[a].path == [1] && tree[b].path == [2]
    && forall n :: n in tree ==> tree[n].path in {[], [1], [2]}
  }

  lemma OnlyThree(tree: Tree, root: TreeNode, a: TreeNode, b: TreeNode)
    requires TwoTokens(tree, root, a, b)
    ensures tree.Keys == {root, a, b} && a != root && b != root && a != b
    ensures IsLeaf(tree, a) && IsLeaf(tree, b) && |tree[a].value| == 1 && |tree[b].value| == 1
  {
    forall n | n in tree ensures n in {root, a, b} {
      NonRootHasPath(tree, root, n);
      if tree[n].path == [1] {
        SamePath(tree, root, n, a);
      } else if tree[n].path == [2] {
        SamePath(tree, root, n, b);
      }
    }
    NonRootHasPath(tree, root, a);
    NonRootHasPath(tree, root, b);
    assert HangsOn(tree, a) && HangsOn(tree, b);
    NoChild(tree, root, a);
    NoChild(tree, root, b);
  }

  /** A node of one token has no child here, and one position. */
  lemma NoChild(tree: Tree, root: TreeNode, n: TreeNode)
    requires Shape(tree, root) && n in tree && |tree[n].path| == 1 && n != root
    requires forall m :: m in tree ==> |tree[m].path| <= 1
    ensures IsLeaf(tree, n) && |tree[n].value| == 1
  {
    assert HangsOn(tree, n) && ChildrenOk(tree, n);
    forall t ensures t !in tree[n].children {
      if t in tree[n].children {
        ChildIsLonger(tree, root, n, t);
      }
    }
  }

  lemma ChildIsLonger(tree: Tree, root: TreeNode, n: TreeNode, t: Token)
    requires Shape(tree, root) && n in tree && t in tree[n].children
    ensures tree[n].children[t] in tree && |tree[tree[n].children[t]].path| > |tree[n].path|
  {
    assert ChildrenOk(tree, n);
    var c := tree[n].children[t];
    assert c != root;
    assert HangsOn(tree, c);
  }

  /** Of two unlocked tokens the one accessed earlier goes, and the other stays. */
  lemma EarlierGoes(before: Tree, after: Tree, root: TreeNode, a: TreeNode, b: TreeNode, e: int, p: int, e': int, p': int)
    requires TwoTokens(before, root, a, b) && Shape(after, root) && LeftOf(after, before)
    requires SizesOk(before, root, e, p) && SizesOk(after, root, e', p')
    requires before[a].lockRef == 0 && before[b].lockRef == 0 && b.lastAccess < a.lastAccess
    requires e - e' >= 1 && StopsInTime(before, after, e - e', 1) && OldestFirst(before, after, root)
    ensures a in after && b !in after
  {
    RootStays(after, root);
    hide SizesOk, Shape;
    OnlyThree(before, root, a, b);
    assert Unlocked(before, root) == {a, b} && Unlocked(after, root) == {a, b} * after.Keys;
    TokensOfTwo(before, a, b);
    TotalIs(before, root, e, p, {a, b});
    if b in after {
      assert a in after;
      assert {a, b} * after.Keys == {a, b};
      TotalIs(after, root, e', p', {a, b});
      TokensAgree(before, after, {a, b});
    } else {
      assert Unlocked(after, root) == if a in after then {a} else {};
      if a !in after {
        TotalIs(after, root, e', p', {});
        NotBoth(before, after, root, a, b);
      }
    }
  }

  /** Once the first is gone, the second would be one token too many. */
  lemma NotBoth(before: Tree, after: Tree, root: TreeNode, a: TreeNode, b: TreeNode)
    requires before.Keys == {root, a, b} && |before[a].value| == 1 && |before[b].value| == 1
    requires root in after && StopsInTime(before, after, 2, 1)
    ensures a in after || b in after
  {
  }

  lemma RootStays(tree: Tree, root: TreeNode)
    requires Shape(tree, root)
    ensures root in tree
  {
  }

  lemma TotalIs(tree: Tree, root: TreeNode, e: int, p: int, s: set<TreeNode>)
    requires SizesOk(tree, root, e, p) && Unlocked(tree, root) == s
    ensures s <= tree.Keys && e == Tokens(tree, s)
  {
  }

  lemma TokensOfTwo(tree: Tree, a: TreeNode, b: TreeNode)
    requires a in tree && b in tree && a != b
    ensures Tokens(tree, {a, b}) == |tree[a].value| + |tree[b].value|
  {
    TokensRemove(tree, {a, b}, a);
    assert {a, b} - {a} == {b};
    TokensRemove(tree, {b}, b);
  }

  /** Nothing but these token sequences is cached. */
  ghost predicate Only(cached: Cached, keys: set<seq<Token>>) {
    forall e: (seq<Token>, seq<int>) :: e in cached ==> e.0 in keys
  }

  lemma NewToken(before: Tree, after: Tree, node: TreeNode, t: Token, m: nat, keys: set<seq<Token>>)
    requires Inserted(before, after, node, [t], [t], m) && Only(Contents(before), keys) && [t] !in keys
    ensures m == 0 && node in after && after[node].path == [t] && Only(Contents(after), keys + {[], [t]})
  {
    hide Contents;
    assert [t][..1] == [t];
    forall e: (seq<Token>, seq<int>) | e in Prefixes([t], after[node].slots) ensures e.0 in keys + {[], [t]} {
      assert e.0 == [t][..|e.0|];
      assert |e.0| == 1 ==> e.0 == [t];
    }
  }

  lemma TwoAreCached(tree: Tree, root: TreeNode, a: TreeNode, b: TreeNode)
    requires Shape(tree, root) && Only(Contents(tree), {[], [1], [2]})
    requires a in tree && b in tree && tree[a].path == [1] && tree[b].path == [2]
    ensures TwoTokens(tree, root, a, b)
  {
    forall n | n in tree ensures tree[n].path in {[], [1], [2]} {
      SlotsMatchPath(tree, root, n);
      assert Stored(tree, tree[n].path, tree[n].slots);
      assert (tree[n].path, tree[n].slots) in Contents(tree);
    }
  }

  /** The match refreshes the first token's node only. */
  lemma FirstIsRefreshed(before: Tree, root: TreeNode, a: TreeNode, b: TreeNode, was: map<TreeNode, int>,
                         later: map<TreeNode, int>, m: nat, now: int)
    requires TwoTokens(before, root, a, b) && Longest(Contents(before), [1], m)
    requires Refreshed(before, was, later, [1][..m], now) && later.Keys >= before.Keys
    ensures later[a] == now && later[b] == was[b]
  {
    SlotsMatchPath(before, root, a);
    assert Stored(before, [1], before[a].slots);
    assert ([1], before[a].slots) in Contents(before) && [1][..1] == [1];
    assert m == 1;
    OnlyThree(before, root, a, b);
    PrefixIsOnWalk(before, root, a, [1]);
    assert HangsOn(before, b);
    ParentPath(before, b);
    assert !OnWalk(before, b, [1]);
  }

  lemma WhatIsLeft(before: Tree, after: Tree, root: TreeNode, a: TreeNode, b: TreeNode)
    requires TwoTokens(before, root, a, b) && LeftOf(after, before) && a in after && b !in after
    ensures Holds(Contents(after), [1]) && !Holds(Contents(after), [2])
  {
    OnlyThree(before, root, a, b);
    SlotsMatchPath(before, root, a);
    assert Stored(after, [1], after[a].slots);
    assert ([1], after[a].slots) in Contents(after);
    forall n | n in after ensures !([2] <= after[n].path) {
      assert n in {root, a} && after[n].path == before[n].path;
      var two: seq<Token> := [2];
      assert two[0] == 2 && (n == root ==> after[n].path == []) && (n != root ==> after[n].path == [1]);
    }
    assert forall v :: !Stored(after, [2], v);
  }

  lemma BothThere(tree: Tree, root: TreeNode, a: TreeNode, b: TreeNode)
    requires TwoTokens(tree, root, a, b)
    ensures Shape(tree, root) && a in tree && b in tree && tree[a].path == [1] && tree[b].path == [2]
  {
  }

  lemma NobodyLocked(tree: Tree, root: TreeNode, n: TreeNode)
    requires Balanced(tree, root, []) && n in tree && n != root
    ensures tree[n].lockRef == 0
  {
  }

  lemma NothingYet()
    ensures Only(Prefixes([], []), {[]})
  {
  }

  lemma StillCached(before: Tree, after: Tree, n: TreeNode)
    requires Keeps(before, after) && n in before
    ensures n in after && after[n].path == before[n].path
  {
  }

  lemma RefinesIs(a: Tree, b: Tree, root: TreeNode, held: seq<TreeNode>)
    requires Refines(a, b, root, held)
    ensures Keeps(a, b) && Contents(a) == Contents(b) && (Balanced(a, root, held) ==> Balanced(b, root, held))
  {
  }

  method InsertOne() returns (cache: RadixCache, ghost a: TreeNode)
    ensures fresh(cache) && fresh(cache.tree.Keys) && cache.Valid() && Balanced(cache.tree, cache.root, [])
    ensures cache.held == [] && cache.evictableSize == 1 && a in cache.tree && cache.tree[a].path == [1]
    ensures Only(Contents(cache.tree), {[], [1]})
  {
    hide RadixCache.Valid, Balanced, Shape, Refreshed, Contents, Inserted, Keeps, Only, Prefixes, Times, Longest;
    NothingYet();
    cache := new RadixCache();
    ghost var t0 := cache.tree;
    var m, first;
    m, first := cache.Insert([1], None, 1);
    a := first.value;
    NewToken(t0, cache.tree, a, 1, m, {[]});
    assert {[]} + {[], [1]} == {[], [1]};
  }

  /** Two tokens are inserted one after the other. */
  method InsertBoth() returns (cache: RadixCache, ghost a: TreeNode, ghost b: TreeNode)
    ensures fresh(cache) && fresh(cache.tree.Keys) && cache.Valid() && Balanced(cache.tree, cache.root, [])
    ensures cache.held == [] && cache.evictableSize == 2 && TwoTokens(cache.tree, cache.root, a, b) && b.lastAccess == 2
    ensures Only(Contents(cache.tree), {[], [1], [2]})
  {
    hide RadixCache.Valid, Balanced, Shape, Refreshed, Contents, Inserted, Keeps, Only, TwoTokens, Prefixes, Times, Longest;
    cache, a := InsertOne();
    ghost var t1, root := cache.tree, cache.root;
    var m, second;
    m, second := cache.Insert([2], None, 2);
    b := second.value;
    NewToken(t1, cache.tree, b, 2, m, {[], [1]});
    assert {[], [1]} + {[], [2]} == {[], [1], [2]};
    StillCached(t1, cache.tree, a);
    cache.Sizes();
    TwoAreCached(cache.tree, root, a, b);
  }

  /** The first of them is matched again. */
  method MatchAgain() returns (cache: RadixCache, ghost a: TreeNode, ghost b: TreeNode)
    ensures fresh(cache) && fresh(cache.tree.Keys) && cache.Valid() && Balanced(cache.tree, cache.root, [])
    ensures cache.held == [] && cache.evictableSize == 2
    ensures TwoTokens(cache.tree, cache.root, a, b) && b.lastAccess < a.lastAccess
  {
    hide RadixCache.Valid, Balanced, Shape, Refreshed, Contents, Keeps, Refines, Only, TwoTokens, Times, Longest;
    cache, a, b := InsertBoth();
    ghost var t2, root := cache.tree, cache.root;
    BothThere(t2, root, a, b);
    TimesAre(t2);
    ghost var times := Times(t2);
    var value, node;
    value, node := cache.MatchPrefix([1], 3);
    RefinesIs(t2, cache.tree, root, []);
    StillCached(t2, cache.tree, a);
    StillCached(t2, cache.tree, b);
    cache.Sizes();
    TwoAreCached(cache.tree, root, a, b);
    TimesAre(cache.tree);
    FirstIsRefreshed(t2, root, a, b, times, Times(cache.tree), |value|, 3);
  }

  /** One token is evicted then: that is the second. */
  method MatchedStays() returns (cache: RadixCache)
    ensures cache.Valid() && Holds(Contents(cache.tree), [1]) && !Holds(Contents(cache.tree), [2])
  {
    hide RadixCache.Valid, Balanced, Shape, LeftOf, OldestFirst, StopsInTime, Contents, TwoTokens, SizesOk;
    ghost var a, b;
    cache, a, b := MatchAgain();
    ghost var before, root, e, p := cache.tree, cache.root, cache.evictableSize, cache.protectedSize;
    cache.Sizes();
    OnlyThree(before, root, a, b);
    NobodyLocked(before, root, a);
    NobodyLocked(before, root, b);
    cache.Evict(1);
    cache.Sizes();
    EarlierGoes(before, cache.tree, root, a, b, e, p, cache.evictableSize, cache.protectedSize);
    WhatIsLeft(before, cache.tree, root, a, b);
  }
}
