/** Lists and their sums, and stable sorting as Python's `sorted` and `list.sort` do it, together with the facts
    the allocators and routers rely on: the result is ordered and is a rearrangement, and
    an ordered list of integers is determined by its multiset. */
module Ordering {

  /** A total preorder on the listed values: what a sort key induces. */
  ghost predicate PreorderOn<T>(le: (T, T) -> bool, s: seq<T>) {
    && (forall x, y | x in s && y in s :: le(x, y) || le(y, x))
    && (forall x, y, z | x in s && y in s && z in s :: le(x, y) && le(y, z) ==> le(x, z))
  }

  ghost predicate SortedBy<T>(le: (T, T) -> bool, s: seq<T>) {
    forall i, j :: 0 <= i < j < |s| ==> le(s[i], s[j])
  }

  /** Insert before the first element that is not smaller, so equal elements keep their order. */
  function InsertBy<T>(le: (T, T) -> bool, x: T, s: seq<T>): (r: seq<T>)
    ensures |r| == |s| + 1
  {
    if s == [] || le(x, s[0]) then [x] + s else [s[0]] + InsertBy(le, x, s[1..])
  }

  function SortBy<T>(le: (T, T) -> bool, s: seq<T>): (r: seq<T>)
    ensures |r| == |s|
  {
    if s == [] then [] else InsertBy(le, s[0], SortBy(le, s[1..]))
  }

  lemma {:induction false} InsertByAdds<T>(le: (T, T) -> bool, x: T, s: seq<T>)
    ensures multiset(InsertBy(le, x, s)) == multiset(s) + multiset{x}
  {
    if s != [] && !le(x, s[0]) {
      InsertByAdds(le, x, s[1..]);
      assert s == [s[0]] + s[1..];
    }
  }

  lemma {:induction false} SortByRearranges<T>(le: (T, T) -> bool, s: seq<T>)
    ensures multiset(SortBy(le, s)) == multiset(s)
  {
    if s != [] {
      SortByRearranges(le, s[1..]);
      InsertByAdds(le, s[0], SortBy(le, s[1..]));
      assert s == [s[0]] + s[1..];
    }
  }

  lemma PreorderOnFewer<T>(le: (T, T) -> bool, a: seq<T>, b: seq<T>)
    requires PreorderOn(le, b) && forall y :: y in a ==> y in b
    ensures PreorderOn(le, a)
  {
  }

  lemma SmallestFirst<T>(le: (T, T) -> bool, x: T, s: seq<T>)
    requires SortedBy(le, s) && forall i :: 0 <= i < |s| ==> le(x, s[i])
    ensures SortedBy(le, [x] + s)
  {
  }

  /** What is no larger than the head is no larger than the rest. */
  lemma BelowAll<T>(le: (T, T) -> bool, x: T, s: seq<T>)
    requires PreorderOn(le, [x] + s) && SortedBy(le, s) && s != [] && le(x, s[0])
    ensures forall i :: 0 <= i < |s| ==> le(x, s[i])
  {
    forall i | 0 < i < |s| ensures le(x, s[i]) {
      assert x in [x] + s && s[0] in [x] + s && s[i] in [x] + s;
    }
  }

  lemma {:induction false} InsertByKeepsOrder<T>(le: (T, T) -> bool, x: T, s: seq<T>)
    requires PreorderOn(le, [x] + s) && SortedBy(le, s)
    ensures SortedBy(le, InsertBy(le, x, s))
  {
    hide PreorderOn;
    if s == [] || le(x, s[0]) {
      if s != [] {
        BelowAll(le, x, s);
      }
      SmallestFirst(le, x, s);
    } else {
      PreorderOnFewer(le, [x] + s[1..], [x] + s);
      InsertByKeepsOrder(le, x, s[1..]);
      var tail := InsertBy(le, x, s[1..]);
      HeadIsBelow(le, x, s);
      SmallestFirst(le, s[0], tail);
    }
  }

  lemma HeadIsBelow<T>(le: (T, T) -> bool, x: T, s: seq<T>)
    requires PreorderOn(le, [x] + s) && SortedBy(le, s) && s != [] && !le(x, s[0])
    ensures forall i :: 0 <= i < |InsertBy(le, x, s[1..])| ==> le(s[0], InsertBy(le, x, s[1..])[i])
  {
    InsertByAdds(le, x, s[1..]);
    var tail := InsertBy(le, x, s[1..]);
    assert x in [x] + s && s[0] in [x] + s;
    forall i | 0 <= i < |tail| ensures le(s[0], tail[i]) {
      assert tail[i] in multiset(tail);
      assert tail[i] == x || tail[i] in s[1..];
    }
  }

  lemma {:induction false} SortBySorts<T>(le: (T, T) -> bool, s: seq<T>)
    requires PreorderOn(le, s)
    ensures SortedBy(le, SortBy(le, s))
  {
    if s != [] {
      SortBySorts(le, s[1..]);
      var tail := SortBy(le, s[1..]);
      SortByRearranges(le, s[1..]);
      forall y | y in [s[0]] + tail ensures y in s {
        assert y in multiset(tail) || y == s[0];
      }
      InsertByKeepsOrder(le, s[0], tail);
    }
  }

  /** Sorting leaves an already ordered list as it is: the sort is stable. */
  lemma {:induction false} SortByIsStable<T>(le: (T, T) -> bool, s: seq<T>)
    requires SortedBy(le, s)
    ensures SortBy(le, s) == s
  {
    if s != [] {
      SortByIsStable(le, s[1..]);
      assert s == [s[0]] + s[1..];
    }
  }

  /** Sorted, and equal elements stand in the given order. */
  ghost predicate TiesKept<T>(le: (T, T) -> bool, before: (T, T) -> bool, s: seq<T>) {
    forall i, j :: 0 <= i < j < |s| ==> le(s[i], s[j]) && (le(s[j], s[i]) ==> before(s[i], s[j]))
  }

  lemma {:induction false} InsertByKeepsTies<T>(le: (T, T) -> bool, before: (T, T) -> bool, x: T, s: seq<T>)
    requires PreorderOn(le, [x] + s) && TiesKept(le, before, s) && forall y :: y in s ==> before(x, y)
    ensures TiesKept(le, before, InsertBy(le, x, s))
  {
    hide PreorderOn;
    assert SortedBy(le, s);
    if s == [] || le(x, s[0]) {
      if s != [] {
        BelowAll(le, x, s);
      }
    } else {
      var tail := InsertBy(le, x, s[1..]);
      PreorderOnFewer(le, [x] + s[1..], [x] + s);
      InsertByKeepsTies(le, before, x, s[1..]);
      HeadIsBelow(le, x, s);
      InsertByAdds(le, x, s[1..]);
      forall k | 0 <= k < |tail| && le(tail[k], s[0]) ensures before(s[0], tail[k]) {
        assert tail[k] in multiset(tail);
        assert tail[k] in s[1..];
      }
    }
  }

  lemma SortedAreListed<T>(le: (T, T) -> bool, s: seq<T>)
    ensures forall y :: y in SortBy(le, s) ==> y in s
  {
    SortByRearranges(le, s);
    assert forall y :: y in SortBy(le, s) ==> y in multiset(SortBy(le, s));
  }

  /** Sorting keeps equal elements in the order they had. */
  lemma {:induction false} SortByKeepsTies<T>(le: (T, T) -> bool, before: (T, T) -> bool, s: seq<T>)
    requires PreorderOn(le, s) && forall i, j :: 0 <= i < j < |s| ==> before(s[i], s[j])
    ensures TiesKept(le, before, SortBy(le, s))
  {
    hide PreorderOn;
    if s != [] {
      PreorderOnFewer(le, s[1..], s);
      SortByKeepsTies(le, before, s[1..]);
      var tail := SortBy(le, s[1..]);
      SortedAreListed(le, s[1..]);
      PreorderOnFewer(le, [s[0]] + tail, s);
      InsertByKeepsTies(le, before, s[0], tail);
    }
  }

  // ----- integers -----

  predicate Ascending(s: seq<int>) {
    forall i, j :: 0 <= i < j < |s| ==> s[i] <= s[j]
  }

  function IntLe(): (le: (int, int) -> bool) { (x, y) => x <= y }

  function Sort(s: seq<int>): (r: seq<int>)
    ensures |r| == |s|
  {
    SortBy(IntLe(), s)
  }

  lemma SortSorts(s: seq<int>)
    ensures Ascending(Sort(s)) && multiset(Sort(s)) == multiset(s)
  {
    SortBySorts(IntLe(), s);
    SortByRearranges(IntLe(), s);
    var r := Sort(s);
    assert forall i, j :: 0 <= i < j < |r| ==> IntLe()(r[i], r[j]);
  }

  lemma HeadIsLeast(a: seq<int>, b: seq<int>)
    requires Ascending(b) && a != [] && multiset(a) == multiset(b)
    ensures b != [] && b[0] <= a[0]
  {
    assert a[0] in multiset(b);
    var j :| 0 <= j < |b| && b[j] == a[0];
  }

  /** Two ascending lists with the same elements are the same list. */
  lemma {:induction false} AscendingIsCanonical(a: seq<int>, b: seq<int>)
    requires Ascending(a) && Ascending(b) && multiset(a) == multiset(b)
    ensures a == b
  {
    if a == [] {
      assert |multiset(b)| == 0;
    } else {
      HeadIsLeast(a, b);
      HeadIsLeast(b, a);
      RestsAgree(a, b, 0);
      assert b[..0] + b[1..] == b[1..];
      AscendingIsCanonical(a[1..], b[1..]);
      assert a == [a[0]] + a[1..] && b == [b[0]] + b[1..];
    }
  }

  // ----- taking elements out of a list -----

  function RemoveAt<T>(s: seq<T>, j: nat): (r: seq<T>)
    requires j < |s|
    ensures |r| == |s| - 1
  {
    s[..j] + s[j + 1..]
  }

  lemma RemoveAtTakesOne<T>(s: seq<T>, j: nat)
    requires j < |s|
    ensures multiset(s) == multiset(RemoveAt(s, j)) + multiset{s[j]}
    ensures multiset(RemoveAt(s, j)) == multiset(s) - multiset{s[j]}
  {
    assert s == s[..j] + [s[j]] + s[j + 1..];
  }

  lemma UpdateExchanges<T>(s: seq<T>, j: nat, x: T)
    requires j < |s|
    ensures multiset(s[j := x]) == multiset(s) - multiset{s[j]} + multiset{x}
  {
    RemoveAtTakesOne(s, j);
    assert s[j := x] == s[..j] + [x] + s[j + 1..];
  }

  /** Lists with the same elements still have the same elements without a common one. */
  lemma RestsAgree<T>(a: seq<T>, b: seq<T>, j: nat)
    requires a != [] && j < |b| && b[j] == a[0] && multiset(a) == multiset(b)
    ensures multiset(a[1..]) == multiset(RemoveAt(b, j))
  {
    RemoveAtTakesOne(a, 0);
    RemoveAtTakesOne(b, j);
    assert RemoveAt(a, 0) == a[1..];
  }

  lemma Twice<T>(s: seq<T>, i: nat, j: nat)
    requires i < j < |s| && s[i] == s[j]
    ensures multiset(s)[s[i]] >= 2
  {
    RemoveAtTakesOne(s, i);
    assert RemoveAt(s, i)[j - 1] == s[j];
    assert s[j] in multiset(RemoveAt(s, i));
  }

  /** In a list without repetition everything occurs at most once. */
  lemma {:induction false} EachOnce<T>(s: seq<T>, x: T)
    requires forall i, j :: 0 <= i < j < |s| ==> s[i] != s[j]
    ensures multiset(s)[x] <= 1
  {
    if s != [] {
      EachOnce(s[1..], x);
      assert s == [s[0]] + s[1..];
      assert s[0] !in s[1..];
    }
  }

  lemma FindIn<T>(x: T, s: seq<T>) returns (j: nat)
    requires x in multiset(s)
    ensures j < |s| && s[j] == x
  {
    j :| 0 <= j < |s| && s[j] == x;
  }

  // ----- sums -----

  function SumReal(xs: seq<real>): real {
    if xs == [] then 0.0 else xs[0] + SumReal(xs[1..])
  }

  lemma {:induction false} SumRealAppended(xs: seq<real>, x: real)
    ensures SumReal(xs + [x]) == SumReal(xs) + x
  {
    if xs == [] {
      assert xs + [x] == [x];
    } else {
      SumRealAppended(xs[1..], x);
      assert xs + [x] == [xs[0]] + (xs[1..] + [x]);
    }
  }

  function Sum(xs: seq<int>): int {
    if xs == [] then 0 else xs[0] + Sum(xs[1..])
  }

  lemma {:induction false} SumOfRearrangement(a: seq<int>, b: seq<int>)
    requires multiset(a) == multiset(b)
    ensures Sum(a) == Sum(b)
  {
    if a == [] {
      assert |multiset(b)| == 0;
    } else {
      assert a[0] in multiset(b);
      var j := FindIn(a[0], b);
      SumWithout(b, j);
      RestsAgree(a, b, j);
      SumOfRearrangement(a[1..], RemoveAt(b, j));
    }
  }

  lemma {:induction false} SumWithout(xs: seq<int>, j: nat)
    requires j < |xs|
    ensures Sum(RemoveAt(xs, j)) == Sum(xs) - xs[j]
  {
    if j == 0 {
      assert RemoveAt(xs, 0) == xs[1..];
    } else {
      SumWithout(xs[1..], j - 1);
      assert RemoveAt(xs, j) == [xs[0]] + RemoveAt(xs[1..], j - 1);
    }
  }

  lemma {:induction false} SumUpdated(xs: seq<int>, j: nat, x: int)
    requires j < |xs|
    ensures Sum(xs[j := x]) == Sum(xs) - xs[j] + x
  {
    if j == 0 {
      assert xs[0 := x] == [x] + xs[1..];
    } else {
      SumUpdated(xs[1..], j - 1, x);
      assert xs[j := x] == [xs[0]] + xs[1..][j - 1 := x];
    }
  }

  lemma {:induction false} SumAppended(xs: seq<int>, x: int)
    ensures Sum(xs + [x]) == Sum(xs) + x
  {
    if xs == [] {
      assert xs + [x] == [x];
    } else {
      SumAppended(xs[1..], x);
      assert xs + [x] == [xs[0]] + (xs[1..] + [x]);
    }
  }

  // ----- sums of multisets -----

  lemma Swap<T>(a: multiset<T>, b: multiset<T>, c: multiset<T>)
    ensures a + b + c == c + b + a
  {
  }

  lemma Extend<T>(a: multiset<T>, b: multiset<T>, c: multiset<T>, d: multiset<T>, e: multiset<T>)
    requires b + c == d + e
    ensures (a + b) + c == (a + d) + e
  {
    assert (a + b) + c == a + (b + c);
  }

  lemma Cancel<T>(a: multiset<T>, b: multiset<T>, c: multiset<T>)
    requires a + c == b + c
    ensures a == b
  {
    assert a == (a + c) - c && b == (b + c) - c;
  }

  lemma Commute<T>(a: multiset<T>, b: multiset<T>)
    ensures a + b == b + a
  {
  }

  lemma Associate<T>(a: multiset<T>, b: multiset<T>, c: multiset<T>)
    ensures (a + b) + c == a + (b + c)
  {
  }

  lemma Rotate<T>(a: multiset<T>, b: multiset<T>, c: multiset<T>)
    ensures (a + b) + c == (a + c) + b
  {
  }

  lemma AddNone<T>(a: multiset<T>)
    ensures a + multiset{} == a
  {
  }
}
