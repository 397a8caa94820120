/** Splitting a pipeline's layers among its nodes. */
module WaterFilling {
  // A bisection finds the water level; floors and largest remainders make the split whole.  Floats are modelled
  // as reals.

  import opened Ordering
  import opened Outcomes

  // ----- sums -----

  function Pow2(n: nat): (r: real)
    ensures r >= 1.0
  {
    if n == 0 then 1.0 else 2.0 * Pow2(n - 1)
  }

  function Min(a: real, b: real): real { if a <= b then a else b }

  // ----- the water level -----

  /** Layers node `i` takes at level `lam`, before rounding. */
  function Target(caps: seq<int>, power: seq<real>, lam: real, i: nat): real
    requires |caps| == |power| && i < |caps|
  {
    Min(caps[i] as real, lam * power[i])
  }

  function Targets(caps: seq<int>, power: seq<real>, lam: real): (t: seq<real>)
    requires |caps| == |power|
    ensures |t| == |caps|
    ensures forall i :: 0 <= i < |t| ==> t[i] == Target(caps, power, lam, i)
  {
    seq(|caps|, i requires 0 <= i < |caps| => Target(caps, power, lam, i))
  }

  function TotalAt(caps: seq<int>, power: seq<real>, lam: real): real
    requires |caps| == |power|
  {
    SumReal(Targets(caps, power, lam))
  }

  /** What the caller of the filling establishes about the stages. */
  ghost predicate Fillable(caps: seq<int>, power: seq<real>, total: int) {
    && |caps| == |power| && caps != [] && total > 0
    && (forall i :: 0 <= i < |caps| ==> caps[i] > 0)
    && (forall i :: 0 <= i < |power| ==> power[i] > 0.0)
    && total <= Sum(caps)
  }

  /** The level at which the last node is full. */
  function MaxRatio(caps: seq<int>, power: seq<real>): real
    requires |caps| == |power| && caps != []
    requires forall i :: 0 <= i < |power| ==> power[i] > 0.0
  {
    var r := caps[0] as real / power[0];
    if |caps| == 1 then r
    else
      var rest := MaxRatio(caps[1..], power[1..]);
      if r < rest then rest else r
  }

  lemma {:induction false} MaxRatioIsMax(caps: seq<int>, power: seq<real>, i: nat)
    requires |caps| == |power| && i < |caps|
    requires forall q :: 0 <= q < |power| ==> power[q] > 0.0
    ensures caps[i] as real <= MaxRatio(caps, power) * power[i]
  {
    var m := MaxRatio(caps, power);
    if i == 0 {
      QuotientBelow(caps[0] as real, power[0], m);
    } else {
      MaxRatioIsMax(caps[1..], power[1..], i - 1);
      var rest := MaxRatio(caps[1..], power[1..]);
      ScaledBelow(rest, m, power[i]);
    }
  }

  lemma QuotientBelow(c: real, f: real, m: real)
    requires f > 0.0 && c / f <= m
    ensures c <= m * f
  {
    ScaledBelow(c / f, m, f);
    assert (c / f) * f == c;
  }

  lemma PositiveFactor(m: real, f: real)
    requires f > 0.0
    ensures m * f > 0.0 ==> m > 0.0
  {
  }

  lemma ScaledBelow(a: real, b: real, f: real)
    requires a <= b && f >= 0.0
    ensures a * f <= b * f
  {
  }

  lemma {:induction false} SumOfReals(caps: seq<int>, xs: seq<real>)
    requires |caps| == |xs| && forall i :: 0 <= i < |xs| ==> xs[i] == caps[i] as real
    ensures SumReal(xs) == Sum(caps) as real
  {
    if xs != [] {
      SumOfReals(caps[1..], xs[1..]);
    }
  }

  lemma {:induction false} SumIsMonotone(xs: seq<real>, ys: seq<real>)
    requires |xs| == |ys| && forall i :: 0 <= i < |xs| ==> xs[i] <= ys[i]
    ensures SumReal(xs) <= SumReal(ys)
  {
    if xs != [] {
      SumIsMonotone(xs[1..], ys[1..]);
    }
  }

  lemma {:induction false} SumOfIncrements(xs: seq<real>, ys: seq<real>, ds: seq<real>)
    requires |xs| == |ys| == |ds| && forall i :: 0 <= i < |xs| ==> ys[i] <= xs[i] + ds[i]
    ensures SumReal(ys) <= SumReal(xs) + SumReal(ds)
  {
    if xs != [] {
      SumOfIncrements(xs[1..], ys[1..], ds[1..]);
    }
  }

  lemma {:induction false} SumOfScaled(power: seq<real>, d: real, ds: seq<real>)
    requires |ds| == |power| && forall i :: 0 <= i < |ds| ==> ds[i] == d * power[i]
    ensures SumReal(ds) == d * SumReal(power)
  {
    if power != [] {
      SumOfScaled(power[1..], d, ds[1..]);
      Distribute(d, power[0], SumReal(power[1..]));
    }
  }

  lemma Distribute(d: real, a: real, b: real)
    ensures d * (a + b) == d * a + d * b
  {
  }

  lemma TargetRises(caps: seq<int>, power: seq<real>, lo: real, d: real, i: nat)
    requires |caps| == |power| && i < |caps| && d >= 0.0 && power[i] > 0.0
    ensures Target(caps, power, lo + d, i) <= Target(caps, power, lo, i) + d * power[i]
  {
    Distribute(power[i], lo, d);
    assert d * power[i] >= 0.0;
  }

  function Increments(power: seq<real>, d: real): (ds: seq<real>)
    ensures |ds| == |power|
    ensures forall i :: 0 <= i < |ds| ==> ds[i] == d * power[i]
  {
    seq(|power|, i requires 0 <= i < |power| => d * power[i])
  }

  /** Raising the level adds at most the raise times the summed power. */
  lemma TotalGrowsSlowly(caps: seq<int>, power: seq<real>, lo: real, d: real)
    requires |caps| == |power| && d >= 0.0
    requires forall i :: 0 <= i < |power| ==> power[i] > 0.0
    ensures TotalAt(caps, power, lo + d) <= TotalAt(caps, power, lo) + d * SumReal(power)
  {
    hide Target, SumReal, Increments;
    var ds := Increments(power, d);
    var before, after := Targets(caps, power, lo), Targets(caps, power, lo + d);
    forall i | 0 <= i < |caps| ensures after[i] <= before[i] + ds[i] {
      TargetRises(caps, power, lo, d, i);
    }
    SumOfIncrements(before, after, ds);
    SumOfScaled(power, d, ds);
  }

  lemma TotalIsMonotone(caps: seq<int>, power: seq<real>, lo: real, hi: real)
    requires |caps| == |power| && lo <= hi
    requires forall i :: 0 <= i < |power| ==> power[i] > 0.0
    ensures TotalAt(caps, power, lo) <= TotalAt(caps, power, hi)
  {
    forall i | 0 <= i < |caps| ensures Target(caps, power, lo, i) <= Target(caps, power, hi, i) {
      ScaledBelow(lo, hi, power[i]);
    }
    SumIsMonotone(Targets(caps, power, lo), Targets(caps, power, hi));
  }

  lemma FullAtMaxRatio(caps: seq<int>, power: seq<real>, total: int)
    requires Fillable(caps, power, total)
    ensures TotalAt(caps, power, MaxRatio(caps, power)) >= total as real
    ensures MaxRatio(caps, power) > 0.0
  {
    var m := MaxRatio(caps, power);
    forall i | 0 <= i < |caps| ensures Target(caps, power, m, i) == caps[i] as real {
      MaxRatioIsMax(caps, power, i);
    }
    SumOfReals(caps, Targets(caps, power, m));
    MaxRatioIsMax(caps, power, 0);
    PositiveFactor(m, power[0]);
  }

  lemma {:induction false} SumOfZeros(xs: seq<real>)
    requires forall i :: 0 <= i < |xs| ==> xs[i] == 0.0
    ensures SumReal(xs) == 0.0
  {
    if xs != [] {
      SumOfZeros(xs[1..]);
    }
  }

  lemma EmptyAtZero(caps: seq<int>, power: seq<real>, total: int)
    requires Fillable(caps, power, total)
    ensures TotalAt(caps, power, 0.0) < total as real
  {
    SumOfZeros(Targets(caps, power, 0.0));
  }

  /** `lam` reaches the total, and some level at most `MaxRatio / 2^iterations` below does not. */
  ghost predicate IsLevel(caps: seq<int>, power: seq<real>, total: int, iterations: nat, lam: real)
    requires Fillable(caps, power, total)
  {
    && lam >= 0.0
    && TotalAt(caps, power, lam) >= total as real
    && TotalAt(caps, power, lam - MaxRatio(caps, power) / Pow2(iterations)) < total as real
  }

  lemma Halved(lo: real, hi: real, step: nat, top: real)
    requires (hi - lo) * Pow2(step) == top
    ensures (0.5 * (lo + hi) - lo) * Pow2(step + 1) == top
    ensures (hi - 0.5 * (lo + hi)) * Pow2(step + 1) == top
  {
    assert 0.5 * (lo + hi) - lo == 0.5 * (hi - lo) == hi - 0.5 * (lo + hi);
    assert (0.5 * (hi - lo)) * (2.0 * Pow2(step)) == (hi - lo) * Pow2(step);
  }

  /** Where `steps` halvings of the interval end. */
  function Bisected(caps: seq<int>, power: seq<real>, total: int, lo: real, hi: real, steps: nat): real
    requires |caps| == |power|
    decreases steps
  {
    if steps == 0 then hi
    else
      var mid := 0.5 * (lo + hi);
      if TotalAt(caps, power, mid) >= total as real then Bisected(caps, power, total, lo, mid, steps - 1)
      else Bisected(caps, power, total, mid, hi, steps - 1)
  }

  /** The level at which the bisection ends. */
  function Level(caps: seq<int>, power: seq<real>, total: int, iterations: nat): real
    requires Fillable(caps, power, total)
  {
    Bisected(caps, power, total, 0.0, MaxRatio(caps, power), iterations)
  }

  lemma {:induction false} BisectedIsLevel(caps: seq<int>, power: seq<real>, total: int, iterations: nat,
                                           lo: real, hi: real, step: nat)
    requires Fillable(caps, power, total) && step <= iterations
    requires 0.0 <= lo <= hi && (hi - lo) * Pow2(step) == MaxRatio(caps, power)
    requires TotalAt(caps, power, hi) >= total as real && TotalAt(caps, power, lo) < total as real
    ensures IsLevel(caps, power, total, iterations, Bisected(caps, power, total, lo, hi, iterations - step))
    decreases iterations - step
  {
    hide TotalAt, MaxRatio, Pow2, Sum;
    var top := MaxRatio(caps, power);
    if step == iterations {
      assert hi - lo == top / Pow2(iterations);
      assert lo == hi - top / Pow2(iterations);
    } else {
      var mid := 0.5 * (lo + hi);
      Halved(lo, hi, step, top);
      if TotalAt(caps, power, mid) >= total as real {
        BisectedIsLevel(caps, power, total, iterations, lo, mid, step + 1);
      } else {
        BisectedIsLevel(caps, power, total, iterations, mid, hi, step + 1);
      }
    }
  }

  /** The bisection ends at a level that reaches the total, next to one that does not. */
  lemma LevelIsLevel(caps: seq<int>, power: seq<real>, total: int, iterations: nat)
    requires Fillable(caps, power, total)
    ensures IsLevel(caps, power, total, iterations, Level(caps, power, total, iterations))
  {
    hide TotalAt, MaxRatio, Sum, IsLevel;
    FullAtMaxRatio(caps, power, total);
    EmptyAtZero(caps, power, total);
    BisectedIsLevel(caps, power, total, iterations, 0.0, MaxRatio(caps, power), 0);
  }

  /** Bisection between 0 and the level at which every node is full. */
  method FindLevel(caps: seq<int>, power: seq<real>, total: int, iterations: nat) returns (lam: real)
    requires Fillable(caps, power, total)
    ensures lam == Level(caps, power, total, iterations)
    ensures IsLevel(caps, power, total, iterations, lam)
  {
    hide TotalAt, MaxRatio, Sum, IsLevel;
    var lo, hi := 0.0, MaxRatio(caps, power);
    var step := 0;
    while step < iterations
      invariant 0 <= step <= iterations
      invariant Bisected(caps, power, total, lo, hi, iterations - step) == Level(caps, power, total, iterations)
    {
      var mid := 0.5 * (lo + hi);
      if TotalAt(caps, power, mid) >= total as real {
        hi := mid;
      } else {
        lo := mid;
      }
      step := step + 1;
    }
    lam := hi;
    LevelIsLevel(caps, power, total, iterations);
  }

  // ----- what the level means -----

  /** A real split of the layers within the caps, at which no node needs more than level `lam`. */
  ghost predicate SplitAtLevel(caps: seq<int>, power: seq<real>, total: int, split: seq<real>, lam: real) {
    && |split| == |caps| == |power|
    && (forall i :: 0 <= i < |split| ==> split[i] <= caps[i] as real && split[i] <= lam * power[i])
    && SumReal(split) >= total as real
  }

  /** No split within the caps can keep its slowest node more than the bisection error below `lam`. */
  lemma LevelIsNearOptimal(caps: seq<int>, power: seq<real>, total: int, iterations: nat, lam: real,
                           split: seq<real>, other: real)
    requires Fillable(caps, power, total) && IsLevel(caps, power, total, iterations, lam)
    requires SplitAtLevel(caps, power, total, split, other)
    ensures lam <= other + MaxRatio(caps, power) / Pow2(iterations)
  {
    var low := lam - MaxRatio(caps, power) / Pow2(iterations);
    SumIsMonotone(split, Targets(caps, power, other));
    if other <= low {
      TotalIsMonotone(caps, power, other, low);
    }
  }

  // ----- rounding: floors, then largest remainders -----

  function Floors(target: seq<real>): (f: seq<int>)
    ensures |f| == |target|
    ensures forall i :: 0 <= i < |f| ==> f[i] == target[i].Floor
  {
    seq(|target|, i requires 0 <= i < |target| => target[i].Floor)
  }

  /** Sort key of the remainders: larger fraction first, then smaller index. */
  datatype Remainder = Remainder(frac: real, index: int)

  function LargerFirst(): (le: (Remainder, Remainder) -> bool) {
    (x: Remainder, y: Remainder) => x.frac > y.frac || (x.frac == y.frac && x.index <= y.index)
  }

  function Remainders(target: seq<real>): (r: seq<Remainder>)
    ensures |r| == |target|
    ensures forall i :: 0 <= i < |r| ==> r[i] == Remainder(target[i] - target[i].Floor as real, i)
  {
    seq(|target|, i requires 0 <= i < |target| => Remainder(target[i] - target[i].Floor as real, i))
  }

  function SumFracs(rs: seq<Remainder>): real {
    if rs == [] then 0.0 else rs[0].frac + SumFracs(rs[1..])
  }

  lemma {:induction false} FracsWithout(rs: seq<Remainder>, j: nat)
    requires j < |rs|
    ensures SumFracs(RemoveAt(rs, j)) == SumFracs(rs) - rs[j].frac
  {
    if j == 0 {
      assert RemoveAt(rs, 0) == rs[1..];
    } else {
      FracsWithout(rs[1..], j - 1);
      assert RemoveAt(rs, j) == [rs[0]] + RemoveAt(rs[1..], j - 1);
    }
  }

  lemma {:induction false} FracsOfRearrangement(a: seq<Remainder>, b: seq<Remainder>)
    requires multiset(a) == multiset(b)
    ensures SumFracs(a) == SumFracs(b)
  {
    if a == [] {
      assert |multiset(b)| == 0;
    } else {
      assert a[0] in multiset(b);
      var j := FindIn(a[0], b);
      FracsWithout(b, j);
      RestsAgree(a, b, j);
      FracsOfRearrangement(a[1..], RemoveAt(b, j));
    }
  }

  lemma {:induction false} FracsAreTheDifference(target: seq<real>, rs: seq<Remainder>, floors: seq<int>)
    requires |target| == |rs| == |floors|
    requires forall i :: 0 <= i < |rs| ==> rs[i].frac == target[i] - floors[i] as real
    ensures SumFracs(rs) == SumReal(target) - Sum(floors) as real
  {
    if rs != [] {
      FracsAreTheDifference(target[1..], rs[1..], floors[1..]);
    }
  }

  /** In descending order, fractions below 1 cannot sum past the first one that is zero. */
  lemma {:induction false} FracsRunOut(rs: seq<Remainder>, p: nat)
    requires p <= |rs| && forall q :: 0 <= q < |rs| ==> 0.0 <= rs[q].frac < 1.0
    requires forall q :: p <= q < |rs| ==> rs[q].frac <= 0.0
    ensures SumFracs(rs) <= p as real
  {
    if rs != [] {
      FracsRunOut(rs[1..], if p == 0 then 0 else p - 1);
    }
  }

  /** Sorted remainders: a permutation of the indices, larger fractions first. */
  ghost predicate IsOrder(target: seq<real>, order: seq<Remainder>) {
    && multiset(order) == multiset(Remainders(target)) && |order| == |target|
    && (forall q :: 0 <= q < |order| ==>
          0 <= order[q].index < |target| && order[q].frac == target[order[q].index] - target[order[q].index].Floor as real)
    && (forall q, q' :: 0 <= q < q' < |order| ==> order[q].index != order[q'].index)
    && (forall q, q' :: 0 <= q < q' < |order| ==> LargerFirst()(order[q], order[q']))
    && SumFracs(order) == SumReal(target) - Sum(Floors(target)) as real
  }

  lemma RearrangedRemainders(target: seq<real>, order: seq<Remainder>)
    requires multiset(order) == multiset(Remainders(target))
    ensures forall q :: 0 <= q < |order| ==>
              && 0 <= order[q].index < |target|
              && order[q].frac == target[order[q].index] - target[order[q].index].Floor as real
  {
    forall q | 0 <= q < |order| ensures order[q] in Remainders(target) {
      assert order[q] in multiset(order);
    }
  }

  lemma RearrangedStayDistinct(target: seq<real>, order: seq<Remainder>)
    requires multiset(order) == multiset(Remainders(target))
    ensures forall q, q' :: 0 <= q < q' < |order| ==> order[q].index != order[q'].index
  {
    RearrangedRemainders(target, order);
    forall q, q' | 0 <= q < q' < |order| ensures order[q].index != order[q'].index {
      EachOnce(Remainders(target), order[q]);
      if order[q] == order[q'] {
        Twice(order, q, q');
      }
    }
  }

  lemma SortedRemaindersAreOrder(target: seq<real>)
    ensures IsOrder(target, SortBy(LargerFirst(), Remainders(target)))
  {
    hide SortBy, SumFracs, SumReal, Sum;
    var rs := Remainders(target);
    var order := SortBy(LargerFirst(), rs);
    SortBySorts(LargerFirst(), rs);
    SortByRearranges(LargerFirst(), rs);
    FracsOfRearrangement(order, rs);
    FracsAreTheDifference(target, rs, Floors(target));
    RearrangedRemainders(target, order);
    RearrangedStayDistinct(target, order);
  }

  // ----- the stages -----

  /** The rounding of `target`: floors that fit the caps, and sum to no more than is reached. */
  ghost predicate Roundable(caps: seq<int>, target: seq<real>, total: int) {
    && |caps| == |target|
    && (forall i :: 0 <= i < |caps| ==> 0.0 <= target[i] <= caps[i] as real)
    && SumReal(target) >= total as real
    && Sum(Floors(target)) <= total
  }

  /** Each stage is its target rounded down or up, within its cap; rounding up goes to the
      largest remainders, and to smaller indices among equal ones; the stages sum to the total. */
  ghost predicate Rounded(caps: seq<int>, target: seq<real>, total: int, stages: seq<int>) {
    && |caps| == |target| == |stages|
    && (forall i :: 0 <= i < |stages| ==> RoundedAt(caps, target, stages, i))
    && (forall i, j :: 0 <= i < |stages| && 0 <= j < |stages| ==> FairlyRounded(target, stages, i, j))
    && Sum(stages) == total
  }

  ghost predicate FairlyRounded(target: seq<real>, stages: seq<int>, i: nat, j: nat)
    requires |target| == |stages| && i < |stages| && j < |stages|
  {
    stages[i] > target[i].Floor && stages[j] <= target[j].Floor ==>
      var f, g := target[i] - target[i].Floor as real, target[j] - target[j].Floor as real;
      f > g || (f == g && i < j)
  }

  ghost predicate RoundedAt(caps: seq<int>, target: seq<real>, stages: seq<int>, i: nat)
    requires |caps| == |target| == |stages| && i < |stages|
  {
    && target[i].Floor <= stages[i] <= caps[i]
    && stages[i] as real < target[i] + 1.0
  }

  /** While layers remain, the next remainder in order is positive: its stage has room. */
  lemma NextHasRoom(caps: seq<int>, target: seq<real>, total: int, order: seq<Remainder>, p: nat)
    requires Roundable(caps, target, total) && IsOrder(target, order)
    requires p < total - Sum(Floors(target))
    ensures p < |order| && order[p].frac > 0.0
    ensures Floors(target)[order[p].index] < caps[order[p].index]
  {
    hide SumFracs, SumReal, Sum;
    forall q | 0 <= q < |order| ensures 0.0 <= order[q].frac < 1.0 {
    }
    FracsRunOut(order, |order|);
    if order[p].frac <= 0.0 {
      assert forall q :: p < q < |order| ==> LargerFirst()(order[p], order[q]);
      FracsRunOut(order, p);
    }
  }

  /** How the stages look when the first `p` remainders were rounded up. */
  ghost predicate UpTo(caps: seq<int>, target: seq<real>, order: seq<Remainder>, p: nat, stages: seq<int>) {
    && |stages| == |target| == |caps| && p <= |order| && IsOrder(target, order)
    && (forall i :: 0 <= i < |stages| ==> RoundedAt(caps, target, stages, i))
    && (forall q :: p <= q < |order| ==> stages[order[q].index] == target[order[q].index].Floor)
    && (forall q :: 0 <= q < p ==> stages[order[q].index] == target[order[q].index].Floor + 1)
    && Sum(stages) == Sum(Floors(target)) + p
  }

  lemma NoneUpYet(caps: seq<int>, target: seq<real>, order: seq<Remainder>)
    requires |caps| == |target| && IsOrder(target, order)
    requires forall i :: 0 <= i < |caps| ==> 0.0 <= target[i] <= caps[i] as real
    ensures UpTo(caps, target, order, 0, Floors(target))
  {
  }

  lemma NextIsDown(caps: seq<int>, target: seq<real>, order: seq<Remainder>, p: nat, stages: seq<int>)
    requires UpTo(caps, target, order, p, stages) && p < |order|
    ensures |stages| == |caps| && 0 <= order[p].index < |stages|
    ensures stages[order[p].index] == target[order[p].index].Floor
  {
  }

  lemma OneMoreUp(caps: seq<int>, target: seq<real>, order: seq<Remainder>, p: nat, stages: seq<int>)
    requires UpTo(caps, target, order, p, stages) && p < |order| && order[p].frac > 0.0
    requires stages[order[p].index] < caps[order[p].index]
    ensures UpTo(caps, target, order, p + 1, stages[order[p].index := stages[order[p].index] + 1])
  {
    hide Sum;
    var i := order[p].index;
    var up := stages[i := stages[i] + 1];
    SumUpdated(stages, i, stages[i] + 1);
    forall q | 0 <= q < |order| && q != p ensures up[order[q].index] == stages[order[q].index] {
      assert order[if q < p then q else p].index != order[if q < p then p else q].index;
    }
    forall j | 0 <= j < |up| ensures RoundedAt(caps, target, up, j) {
      assert RoundedAt(caps, target, stages, j);
    }
  }

  lemma FirstAreUp(caps: seq<int>, target: seq<real>, order: seq<Remainder>, p: nat, stages: seq<int>)
    requires UpTo(caps, target, order, p, stages)
    ensures Rounded(caps, target, Sum(stages), stages)
    ensures Sum(stages) == Sum(Floors(target)) + p
  {
    forall i, j | 0 <= i < |stages| && 0 <= j < |stages| ensures FairlyRounded(target, stages, i, j) {
      assert Remainders(target)[i] in multiset(Remainders(target));
      assert Remainders(target)[j] in multiset(Remainders(target));
      var q := FindIn(Remainders(target)[i], order);
      var q' := FindIn(Remainders(target)[j], order);
      if q < q' {
        assert LargerFirst()(order[q], order[q']);
      }
    }
  }

  /** Floors, then the largest remainders.  It raises exactly when the floors alone exceed the total. */
  method Round(caps: seq<int>, target: seq<real>, total: int) returns (r: Result<seq<int>>)
    requires |caps| == |target| && SumReal(target) >= total as real
    requires forall i :: 0 <= i < |caps| ==> 0.0 <= target[i] <= caps[i] as real
    ensures r.Ok? <==> Sum(Floors(target)) <= total
    ensures r.Ok? ==> Rounded(caps, target, total, r.value)
    ensures r.Raise? ==> r.error == NegativeRemaining
  {
    hide SumReal, Sum, SortBy, SumFracs, UpTo;
    var stages := Floors(target);
    var remaining := total - Sum(stages);
    if remaining < 0 {
      return Raise(NegativeRemaining);
    }
    var order := SortBy(LargerFirst(), Remainders(target));
    SortedRemaindersAreOrder(target);
    NoneUpYet(caps, target, order);
    var p := 0;
    while p < |order|
      invariant 0 <= p <= |order|
      invariant remaining == total - Sum(Floors(target)) - p
      invariant remaining >= 0
      invariant UpTo(caps, target, order, p, stages)
    {
      if remaining == 0 {
        break;
      }
      NextHasRoom(caps, target, total, order, p);
      NextIsDown(caps, target, order, p, stages);
      var i := order[p].index;
      var room := caps[i] - stages[i];
      if room > 0 {
        OneMoreUp(caps, target, order, p, stages);
        stages := stages[i := stages[i] + 1];
        remaining := remaining - 1;
      }
      p := p + 1;
    }
    if remaining > 0 {
      NextHasRoom(caps, target, total, order, p);
    }
    FirstAreUp(caps, target, order, p, stages);
    r := Ok(stages);
  }

  // ----- the whole filling -----

  /** What a successful filling returns: the rounded targets of the level the bisection ends at. */
  ghost predicate IsFilling(caps: seq<int>, power: seq<real>, total: int, iterations: nat, stages: seq<int>)
    requires Fillable(caps, power, total)
  {
    Rounded(caps, Targets(caps, power, Level(caps, power, total, iterations)), total, stages)
  }

  /** The targets of that level, rounded down, do not exceed the total. */
  predicate FloorsFit(caps: seq<int>, power: seq<real>, total: int, iterations: nat)
    requires Fillable(caps, power, total)
  {
    Sum(Floors(Targets(caps, power, Level(caps, power, total, iterations)))) <= total
  }

  lemma FloorsBelowSum(target: seq<real>)
    ensures Sum(Floors(target)) as real <= SumReal(target)
  {
    if target != [] {
      FloorsBelowSum(target[1..]);
      assert Floors(target)[1..] == Floors(target[1..]);
    }
  }

  /** Enough bisection steps keep the floors within the total. */
  lemma EnoughIterations(caps: seq<int>, power: seq<real>, total: int, iterations: nat, lam: real)
    requires Fillable(caps, power, total) && IsLevel(caps, power, total, iterations, lam)
    requires MaxRatio(caps, power) * SumReal(power) <= Pow2(iterations)
    ensures Sum(Floors(Targets(caps, power, lam))) <= total
  {
    hide TotalAt, MaxRatio, Pow2, Sum, SumReal, Target;
    var width := MaxRatio(caps, power) / Pow2(iterations);
    FullAtMaxRatio(caps, power, total);
    WidthTimesPower(MaxRatio(caps, power), Pow2(iterations), SumReal(power));
    TotalGrowsSlowly(caps, power, lam - width, width);
    assert lam - width + width == lam;
    FloorsBelowSum(Targets(caps, power, lam));
    assert TotalAt(caps, power, lam) == SumReal(Targets(caps, power, lam)) by { TotalIsSum(caps, power, lam); }
  }

  lemma TotalIsSum(caps: seq<int>, power: seq<real>, lam: real)
    requires |caps| == |power|
    ensures TotalAt(caps, power, lam) == SumReal(Targets(caps, power, lam))
  {
  }

  lemma WidthTimesPower(m: real, p: real, f: real)
    requires p > 0.0 && m > 0.0 && m * f <= p
    ensures (m / p) * f <= 1.0 && m / p > 0.0
  {
    assert (m / p) * f == (m * f) / p;
  }

  /** It raises for lack of capacity, or when the floors alone exceed the total, which enough bisection steps
      prevent; otherwise it fills. */
  method Fill(caps: seq<int>, power: seq<real>, total: int, iterations: nat) returns (r: Result<seq<int>>)
    requires |caps| == |power| && caps != [] && total > 0
    requires forall i :: 0 <= i < |caps| ==> caps[i] > 0 && power[i] > 0.0
    ensures Sum(caps) < total <==> r == Raise(NotEnoughCapacity)
    ensures r.Ok? ==> Fillable(caps, power, total) && IsFilling(caps, power, total, iterations, r.value)
    ensures r == Raise(NegativeRemaining) <==> Fillable(caps, power, total) && !FloorsFit(caps, power, total, iterations)
    ensures r.Raise? ==> r.error == NotEnoughCapacity || r.error == NegativeRemaining
    ensures Sum(caps) >= total && MaxRatio(caps, power) * SumReal(power) <= Pow2(iterations) ==> r.Ok?
  {
    hide TotalAt, MaxRatio, Pow2, Sum, SumReal, Target, IsLevel, Rounded, Bisected;
    if Sum(caps) < total {
      return Raise(NotEnoughCapacity);
    }
    var lam := FindLevel(caps, power, total, iterations);
    var target := Targets(caps, power, lam);
    LevelTargets(caps, power, total, iterations, lam);
    r := Round(caps, target, total);
    if MaxRatio(caps, power) * SumReal(power) <= Pow2(iterations) {
      EnoughIterations(caps, power, total, iterations, lam);
    }
  }

  lemma LevelTargets(caps: seq<int>, power: seq<real>, total: int, iterations: nat, lam: real)
    requires Fillable(caps, power, total) && IsLevel(caps, power, total, iterations, lam)
    ensures SumReal(Targets(caps, power, lam)) >= total as real
    ensures forall i :: 0 <= i < |caps| ==> 0.0 <= Targets(caps, power, lam)[i] <= caps[i] as real
  {
    forall i | 0 <= i < |caps| ensures 0.0 <= Target(caps, power, lam, i) <= caps[i] as real {
      ScaledBelow(0.0, lam, power[i]);
    }
  }

  /** No node takes more than one layer above what the level gives it. */
  lemma StagesStayNearTheLevel(caps: seq<int>, power: seq<real>, total: int, lam: real, stages: seq<int>, i: nat)
    requires Fillable(caps, power, total) && i < |caps|
    requires Rounded(caps, Targets(caps, power, lam), total, stages)
    ensures stages[i] as real / power[i] < lam + 1.0 / power[i]
  {
    assert RoundedAt(caps, Targets(caps, power, lam), stages, i);
    var f := power[i];
    assert (stages[i] as real) < (lam + 1.0 / f) * f by {
      assert (1.0 / f) * f == 1.0;
      assert (lam + 1.0 / f) * f == lam * f + (1.0 / f) * f;
    }
    DivideBoth(stages[i] as real, lam + 1.0 / f, f);
  }

  lemma DivideBoth(a: real, b: real, f: real)
    requires f > 0.0 && a < b * f
    ensures a / f < b
  {
    assert (a / f) * f == a;
    assert (b - a / f) * f > 0.0;
  }
}
