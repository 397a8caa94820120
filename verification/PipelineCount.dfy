/** Choosing how many pipelines to build: the scan over target counts and its score. */
module PipelineCount {
  import opened PipelineSearch
  import opened PipelinePlans
  import opened ResidualRange
  import opened SearchTable
  import Backtrack

  predicate CapsOk(fleet: seq<Caps>) {
    forall i :: 0 <= i < |fleet| ==> 0 <= fleet[i].plain && fleet[i].endpoint <= fleet[i].plain
  }

  function TotalCapacity(fleet: seq<Caps>): int {
    CapacityFrom(Search(1, fleet, 0), 0)
  }

  /** The score k^2 / s of `k` pipelines made of `s` stages in all. */
  function Score(k: nat, stages: nat): real
    requires stages > 0
  {
    (k * k) as real / stages as real
  }

  /** The plan builds `k` pipelines, at least one, out of the fleet. */
  ghost predicate Builds(layers: int, fleet: seq<Caps>, k: nat, plan: seq<seq<nat>>) {
    k > 0 && IsPlan(Search(layers, fleet, k), plan)
  }

  lemma {:induction false} CapacityIgnoresTarget(s: Search, t: Search, i: nat)
    requires s.fleet == t.fleet && i <= |s.fleet|
    ensures CapacityFrom(s, i) == CapacityFrom(t, i)
    decreases |s.fleet| - i
  {
    if i < |s.fleet| {
      CapacityIgnoresTarget(s, t, i + 1);
    }
  }

  /** A fleet that carries `k` pipelines has at least `k` nodes and `k` times the layers:
      the scan's upper bound leaves no feasible count out. */
  lemma FeasibleCountIsBounded(layers: int, fleet: seq<Caps>, k: nat, plan: seq<seq<nat>>)
    requires layers > 0 && CapsOk(fleet) && IsPlan(Search(layers, fleet, k), plan)
    ensures k <= |fleet| && k * layers <= TotalCapacity(fleet)
    ensures k <= TotalCapacity(fleet) / layers
    ensures k > 0 ==> layers <= TotalCapacity(fleet)
  {
    hide Decide, Exhaustive, CapacityFrom, IsPlan, Stages;
    var s := Search(layers, fleet, k);
    SearchIsALowerBound(s, plan);
    PruningIsExact(s, Root());
    CompletableIsNotCut(s, Root());
    CapacityIgnoresTarget(s, Search(1, fleet, 0), 0);
    QuotientBounds(k, TotalCapacity(fleet), layers);
    AtLeastOnce(k, layers);
  }

  lemma AtLeastOnce(k: nat, layers: int)
    requires layers > 0
    ensures k > 0 ==> layers <= k * layers
  {
    assert k > 0 ==> (k - 1) * layers >= 0;
  }

  lemma QuotientBounds(k: nat, total: int, layers: int)
    requires layers > 0 && k * layers <= total
    ensures k <= total / layers
  {
    var d := total / layers;
    assert total == d * layers + total % layers;
    assert k * layers < (d + 1) * layers;
    SmallerFactor(k, d + 1, layers);
  }

  lemma SmallerFactor(a: int, b: int, m: int)
    requires m > 0 && a * m < b * m
    ensures a < b
  {
    assert (b - a) * m > 0;
  }

  /** Each pipeline still to begin costs a stage of its own. */
  lemma {:induction false} CostCoversPipelines(s: Search, st: State)
    requires st.i <= |s.fleet| && Exhaustive(s, st).Finite?
    ensures NewNeeded(s, st) <= Exhaustive(s, st).stages
    decreases |s.fleet| - st.i
  {
    if !IsDone(s, st) {
      var skip := Exhaustive(s, SkipState(st));
      var q := ExhaustiveAssignIsSome(s, st, 0, skip);
      if Exhaustive(s, st) == OneMore(Exhaustive(s, StartState(s, st))) {
        CostCoversPipelines(s, StartState(s, st));
      } else if q < |st.open| {
        CostCoversPipelines(s, AssignState(s, st, q));
      } else {
        CostCoversPipelines(s, SkipState(st));
      }
    }
  }

  lemma FewerStagesScoreMore(k: nat, fewer: nat, more: nat)
    requires 0 < fewer <= more
    ensures Score(k, more) <= Score(k, fewer)
  {
    var a := (k * k) as real;
    assert a * (fewer as real) <= a * (more as real);
    assert a / more as real <= a / fewer as real;
  }

  /** Scores compare like the products across. */
  lemma ScoresCompare(k: nat, stages: nat, best: nat, fewest: nat)
    requires stages > 0 && fewest > 0
    ensures Score(k, stages) <= Score(best, fewest) <==> k * k * fewest <= best * best * stages
    ensures Score(k, stages) < Score(best, fewest) <==> k * k * fewest < best * best * stages
  {
    FractionsCompare(k * k, stages, best * best, fewest);
  }

  lemma FractionsCompare(a: nat, s: nat, b: nat, t: nat)
    requires s > 0 && t > 0
    ensures a as real / s as real <= b as real / t as real <==> a * t <= b * s
    ensures a as real / s as real < b as real / t as real <==> a * t < b * s
  {
    var x, y := a as real / s as real, b as real / t as real;
    var st := (s * t) as real;
    assert x * s as real == a as real && y * t as real == b as real;
    assert st == s as real * t as real;
    assert x * st == (x * s as real) * t as real == (a * t) as real;
    assert y * st == (y * t as real) * s as real == (b * s) as real;
    OrderScales(x, y, st);
  }

  lemma OrderScales(x: real, y: real, m: real)
    requires m > 0.0
    ensures (x <= y <==> x * m <= y * m) && (x < y <==> x * m < y * m)
  {
    if x < y {
      assert (y - x) * m > 0.0;
    } else {
      assert (x - y) * m >= 0.0;
      if x > y {
        assert (x - y) * m > 0.0;
      }
    }
  }

  /** What the scan has found once the counts up to `upTo` were tried: nothing scores better, and no smaller
      count as well. */
  ghost predicate BestSoFar(layers: int, fleet: seq<Caps>, upTo: nat, best: nat, score: real) {
    forall k: nat, plan :: Builds(layers, fleet, k, plan) && k <= upTo ==>
      best > 0 && Stages(plan) > 0 && Score(k, Stages(plan)) <= score && (k < best ==> Score(k, Stages(plan)) < score)
  }

  /** One target count tried: the search reports the least number of stages, or that there is no plan. */
  method TryCount(layers: int, fleet: seq<Caps>, k: nat) returns (cost: Cost, path: map<State, Action>)
    requires layers > 0 && CapsOk(fleet) && k > 0
    ensures cost == Decide(Search(layers, fleet, k), Root()).cost
    ensures cost.Finite? ==> Backtrack.Replayable(Search(layers, fleet, k), path) && Root() in path
    ensures cost.Finite? ==> cost.stages >= k
    ensures RoomAtEndpoints(Search(layers, fleet, k)) ==> forall st :: st in path ==> AllInRange(Search(layers, fleet, k), st)
    ensures forall plan :: IsPlan(Search(layers, fleet, k), plan) ==> cost.Finite? && cost.stages <= Stages(plan)
  {
    hide Decide, Exhaustive, IsPlan, Stages, Backtrack.Replayable;
    var s := Search(layers, fleet, k);
    var table := new Table(s);
    cost := table.Solve(Root());
    path := table.path;
    assert EntryOk(s, table.memo, table.path, Root());
    Backtrack.TablesAreReplayable(s, table.memo, table.path);
    if cost.Finite? {
      Backtrack.FiniteHasAction(s, Root());
      PruningIsExact(s, Root());
      CostCoversPipelines(s, Root());
    }
    forall plan | IsPlan(s, plan) ensures NoMoreThan(cost, Finite(Stages(plan))) {
      SearchIsALowerBound(s, plan);
    }
  }

  /** Where the scan over the counts from `k` on ends; a later count must score strictly better. */
  function Scanned(layers: int, fleet: seq<Caps>, k: nat, most: nat, best: nat, score: real): nat
    decreases most + 1 - k
  {
    if k > most then best
    else
      var cost := Decide(Search(layers, fleet, k), Root()).cost;
      if cost.Finite? && cost.stages > 0 && (best == 0 || Score(k, cost.stages) > score) then
        Scanned(layers, fleet, k + 1, most, k, Score(k, cost.stages))
      else Scanned(layers, fleet, k + 1, most, best, score)
  }

  lemma ScanStep(layers: int, fleet: seq<Caps>, k: nat, most: nat, best: nat, score: real)
    ensures k > most ==> Scanned(layers, fleet, k, most, best, score) == best
    ensures k <= most ==>
              var cost := Decide(Search(layers, fleet, k), Root()).cost;
              Scanned(layers, fleet, k, most, best, score) ==
                if cost.Finite? && cost.stages > 0 && (best == 0 || Score(k, cost.stages) > score) then
                  Scanned(layers, fleet, k + 1, most, k, Score(k, cost.stages))
                else Scanned(layers, fleet, k + 1, most, best, score)
  {
  }

  /** The scan's upper bound. */
  function MostPipes(layers: int, fleet: seq<Caps>): nat
    requires layers > 0 && TotalCapacity(fleet) >= 0
  {
    if |fleet| < TotalCapacity(fleet) / layers then |fleet| else TotalCapacity(fleet) / layers
  }

  /** The pipelines the dynamic program settles on, if any. */
  function ChosenPlan(layers: int, fleet: seq<Caps>): seq<seq<nat>> {
    if layers <= 0 || |fleet| == 0 || TotalCapacity(fleet) < layers then []
    else
      var best := Scanned(layers, fleet, 1, MostPipes(layers, fleet), 0, 0.0);
      if best == 0 then [] else Backtrack.PlanOf(Search(layers, fleet, best))
  }

  /** The scan returns the count with the best ratio of its square to the stages it takes, the smallest of
      those, and its pipelines; it finds nothing only if no count is feasible. */
  method ChoosePipelines(layers: int, fleet: seq<Caps>) returns (best: nat, pipelines: seq<seq<nat>>)
    requires CapsOk(fleet)
    ensures pipelines == ChosenPlan(layers, fleet) && |pipelines| == best
    ensures layers > 0 && best == 0 ==>
              forall k: nat, plan :: !Builds(layers, fleet, k, plan)
    ensures best > 0 ==>
              && layers > 0 && Builds(layers, fleet, best, pipelines) && Stages(pipelines) > 0
              && forall k: nat, plan :: Builds(layers, fleet, k, plan) ==>
                   && Stages(plan) > 0 && k * k * Stages(pipelines) <= best * best * Stages(plan)
                   && (k < best ==> k * k * Stages(pipelines) < best * best * Stages(plan))
  {
    hide Scanned, Decide, Score, BestSoFar, Backtrack.Replayable, IsPlan, Stages, TotalCapacity;
    best, pipelines := 0, [];
    var total := TotalCapacity(fleet);
    if layers <= 0 || |fleet| == 0 || total < layers {
      NoCountFits(layers, fleet, total);
      return;
    }
    var maxPipes := MostPipes(layers, fleet);
    var score := 0.0;
    var bestPath: map<State, Action> := map[];
    ghost var stages := 0;
    var k := 1;
    NoCountTried(layers, fleet);
    while k <= maxPipes
      invariant 1 <= k <= maxPipes + 1 && best < k
      invariant BestSoFar(layers, fleet, k - 1, best, score)
      invariant Scanned(layers, fleet, k, maxPipes, best, score) == Scanned(layers, fleet, 1, maxPipes, 0, 0.0)
      invariant best > 0 ==>
                  && stages > 0 && score == Score(best, stages)
                  && Decide(Search(layers, fleet, best), Root()).cost == Finite(stages)
                  && Backtrack.Replayable(Search(layers, fleet, best), bestPath) && Root() in bestPath
    {
      var cost, path := TryCount(layers, fleet, k);
      ghost var score0, best0 := score, best;
      ScanStep(layers, fleet, k, maxPipes, best, score);
      if cost.Finite? {
        var z := Score(k, cost.stages);
        if best == 0 || z > score {
          score, best, bestPath, stages := z, k, path, cost.stages;
        }
      }
      CountTried(layers, fleet, k, cost, best0, score0, best, score);
      k := k + 1;
    }
    AllCountsTried(layers, fleet, maxPipes, best, score);
    ScanStep(layers, fleet, k, maxPipes, best, score);
    if best == 0 {
      return;
    }
    pipelines := Backtrack.Replay(Search(layers, fleet, best), bestPath);
    PlanLength(Search(layers, fleet, best), pipelines);
    forall k: nat, plan | Builds(layers, fleet, k, plan)
      ensures && Stages(plan) > 0 && k * k * Stages(pipelines) <= best * best * Stages(plan)
              && (k < best ==> k * k * Stages(pipelines) < best * best * Stages(plan))
    {
      ScoresCompare(k, Stages(plan), best, Stages(pipelines));
    }
  }

  lemma NoCountTried(layers: int, fleet: seq<Caps>)
    ensures BestSoFar(layers, fleet, 0, 0, 0.0)
  {
  }

  lemma PlanLength(s: Search, plan: seq<seq<nat>>)
    requires IsPlan(s, plan)
    ensures |plan| == s.target
  {
  }

  lemma NoCountFits(layers: int, fleet: seq<Caps>, total: int)
    requires CapsOk(fleet) && total == TotalCapacity(fleet)
    requires layers <= 0 || |fleet| == 0 || total < layers
    ensures layers > 0 ==> forall k: nat, plan :: !Builds(layers, fleet, k, plan)
  {
    if layers > 0 {
      forall k: nat, plan | Builds(layers, fleet, k, plan) ensures false {
        FeasibleCountIsBounded(layers, fleet, k, plan);
      }
    }
  }

  lemma CountTried(layers: int, fleet: seq<Caps>, k: nat, cost: Cost,
                   best: nat, score: real, best': nat, score': real)
    requires layers > 0 && CapsOk(fleet) && k > best
    requires BestSoFar(layers, fleet, k - 1, best, score)
    requires forall plan :: IsPlan(Search(layers, fleet, k), plan) ==> cost.Finite? && cost.stages <= Stages(plan)
    requires cost.Finite? ==> cost.stages >= k && best' > 0 && Score(k, cost.stages) <= score'
    requires if best' == best then best > 0 ==> score == score' else best' == k && (best == 0 || score < score')
    ensures BestSoFar(layers, fleet, k, best', score')
  {
    hide Score, IsPlan, Stages;
    forall k': nat, plan | Builds(layers, fleet, k', plan) && k' <= k
      ensures best' > 0 && Stages(plan) > 0 && Score(k', Stages(plan)) <= score' && (k' < best' ==> Score(k', Stages(plan)) < score')
    {
      if k' == k {
        FewerStagesScoreMore(k, cost.stages, Stages(plan));
      }
    }
  }

  lemma AllCountsTried(layers: int, fleet: seq<Caps>, maxPipes: nat, best: nat, score: real)
    requires layers > 0 && CapsOk(fleet)
    requires TotalCapacity(fleet) >= 0 && maxPipes == MostPipes(layers, fleet)
    requires BestSoFar(layers, fleet, maxPipes, best, score)
    ensures forall k: nat, plan :: Builds(layers, fleet, k, plan) ==>
              best > 0 && Stages(plan) > 0 && Score(k, Stages(plan)) <= score && (k < best ==> Score(k, Stages(plan)) < score)
  {
    forall k: nat, plan | Builds(layers, fleet, k, plan)
      ensures best > 0 && Stages(plan) > 0 && Score(k, Stages(plan)) <= score && (k < best ==> Score(k, Stages(plan)) < score)
    {
      FeasibleCountIsBounded(layers, fleet, k, plan);
    }
  }
}
