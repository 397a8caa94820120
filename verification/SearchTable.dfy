/** The memoised search: the recursion with its cache and its table of chosen actions. */
module SearchTable {
  // `Backtrack` walks the table from the empty state and rebuilds the pipelines.

  import opened Ordering
  import opened Outcomes
  import opened PipelineSearch
  import opened PipelinePlans
  import opened ResidualRange

  // ----- what the table must hold -----

  /** The state an action leads to. */
  function Chosen(s: Search, st: State, action: Action): State
    requires st.i < |s.fleet|
    requires action.Assign? ==> action.j < |st.open|
  {
    match action
    case Assign(j, _) => AssignState(s, st, j)
    case Start(_, _) => StartState(s, st)
    case _ => SkipState(st)
  }

  /** The action is one the search may take in this state, with its flags set truthfully. */
  predicate Legal(s: Search, st: State, action: Action)
    requires st.i < |s.fleet|
  {
    match action
    case Skip => true
    case Assign(j, _) => j < |st.open| && action == AssignAction(s, st, j)
    case Start(_, _) => NewNeeded(s, st) > 0 && action == StartAction(s, st)
    case Done => false
  }

  lemma {:induction false} TryAssignPicks(s: Search, st: State, j: nat, best: Decision) returns (q: nat)
    requires st.i < |s.fleet| && j <= |st.open|
    ensures j <= q <= |st.open|
    ensures TryAssign(s, st, j, best) ==
            if q == |st.open| then best
            else Decision(OneMore(Decide(s, AssignState(s, st, q)).cost), Some(AssignAction(s, st, q)))
    decreases |st.open| - j
  {
    if j == |st.open| {
      q := j;
    } else {
      var cost := OneMore(Decide(s, AssignState(s, st, j)).cost);
      var better := Better(best, cost, AssignAction(s, st, j));
      q := TryAssignPicks(s, st, j + 1, better);
      if q == |st.open| && better != best {
        q := j;
      }
    }
  }

  /** A decision names a legal action, and its cost is that of the state the action leads to. */
  lemma DecisionFollowsItsAction(s: Search, st: State)
    requires Running(s, st) && Decide(s, st).action.Some?
    ensures var action := Decide(s, st).action.value;
            && Legal(s, st, action)
            && Decide(s, st).cost ==
               (if action.Skip? then Decide(s, SkipState(st)).cost
                else OneMore(Decide(s, Chosen(s, st, action)).cost))
  {
    var skip := Decision(Decide(s, SkipState(st)).cost, Some(Skip));
    var q := TryAssignPicks(s, st, 0, skip);
    var afterAssign := TryAssign(s, st, 0, skip);
    assert Decide(s, st) == TryStart(s, st, afterAssign);
  }

  /** Every state looked at during the search of `st` is in the memo. */
  ghost predicate ChoicesIn(s: Search, memo: map<State, Cost>, st: State)
    requires st.i < |s.fleet|
  {
    && SkipState(st) in memo
    && (forall j: nat :: j < |st.open| ==> AssignState(s, st, j) in memo)
    && (NewNeeded(s, st) > 0 ==> StartState(s, st) in memo)
  }

  ghost predicate EntryOk(s: Search, memo: map<State, Cost>, path: map<State, Action>, st: State)
    requires st in memo
  {
    && st.i <= |s.fleet|
    && memo[st] == Decide(s, st).cost
    && (st in path <==> Decide(s, st).action.Some?)
    && (st in path ==> Decide(s, st).action == Some(path[st]))
    && (st in path && !IsDone(s, st) ==> st.i < |s.fleet| && ChoicesIn(s, memo, st))
  }

  ghost predicate TablesOk(s: Search, memo: map<State, Cost>, path: map<State, Action>) {
    && path.Keys <= memo.Keys
    && forall st :: st in memo ==> EntryOk(s, memo, path, st)
  }

  lemma EntryAdded(s: Search, memo: map<State, Cost>, path: map<State, Action>, path': map<State, Action>,
                   st: State, cost: Cost)
    requires TablesOk(s, memo, path) && st.i <= |s.fleet|
    requires cost == Decide(s, st).cost
    requires path' == if Decide(s, st).action.Some? then path[st := Decide(s, st).action.value] else path
    requires Decide(s, st).action.Some? && !IsDone(s, st) ==> st.i < |s.fleet| && ChoicesIn(s, memo, st)
    ensures TablesOk(s, memo[st := cost], path')
  {
    var memo' := memo[st := cost];
    forall x | x in memo' ensures EntryOk(s, memo', path', x) {
      if x in memo {
        assert EntryOk(s, memo, path, x);
      }
    }
  }

  /** The scan over the open pipelines, one at a time. */
  lemma ScanStep(s: Search, st: State, j: nat, best: Decision)
    requires st.i < |s.fleet| && j <= |st.open|
    ensures j == |st.open| ==> TryAssign(s, st, j, best) == best
    ensures j < |st.open| ==>
              TryAssign(s, st, j, best) ==
              TryAssign(s, st, j + 1, Better(best, OneMore(Decide(s, AssignState(s, st, j)).cost), AssignAction(s, st, j)))
  {
  }

  lemma ScanDecides(s: Search, st: State, skip: Decision, scanned: Decision)
    requires Running(s, st) && !Pruned(s, st) && skip == Decision(Decide(s, SkipState(st)).cost, Some(Skip))
    requires scanned == TryAssign(s, st, 0, skip)
    ensures Decide(s, st) == TryStart(s, st, scanned)
    ensures TryStart(s, st, scanned) ==
            if NewNeeded(s, st) > 0 then Better(scanned, OneMore(Decide(s, StartState(s, st)).cost), StartAction(s, st))
            else scanned
  {
  }

  /** Every state in the cache is in the documented range. */
  ghost predicate MemoInRange(s: Search, memo: map<State, Cost>) {
    forall st :: st in memo ==> AllInRange(s, st)
  }

  /** While capacity and nodes are left for all targets, the search comes to the empty state of each node. */
  lemma {:induction false} SkippedAreSearched(s: Search, memo: map<State, Cost>, path: map<State, Action>, i: nat)
    requires WellFormed(s) && TablesOk(s, memo, path) && Root() in memo && s.target > 0
    requires i < |s.fleet| && s.target * s.layers <= CapacityFrom(s, i) && s.target <= |s.fleet| - i
    ensures Skipped(i) in path && ChoicesIn(s, memo, Skipped(i))
  {
    if i > 0 {
      SkippedAreSearched(s, memo, path, i - 1);
    }
    assert !Pruned(s, Skipped(i)) by { CapacityIsSum(s, i); }
    assert EntryOk(s, memo, path, Skipped(i));
    SearchedHasAction(s, Skipped(i));
  }

  lemma CapacityIsSum(s: Search, i: nat)
    requires i < |s.fleet| && s.target * s.layers <= CapacityFrom(s, i)
    ensures CapacityFrom(s, i) >= Sum(Skipped(i).open) + Max(0, NewNeeded(s, Skipped(i))) * s.layers
  {
  }

  lemma SearchedHasAction(s: Search, st: State)
    requires Running(s, st) && !Pruned(s, st)
    ensures Decide(s, st).action.Some?
  {
    var skip := Decision(Decide(s, SkipState(st)).cost, Some(Skip));
    var q := TryAssignPicks(s, st, 0, skip);
  }

  /** Even with its cuts, the search then leaves the documented range at a node without room. */
  lemma TableLeavesRange(s: Search, memo: map<State, Cost>, path: map<State, Action>, i: nat)
    requires WellFormed(s) && TablesOk(s, memo, path) && Root() in memo && s.target > 0
    requires i < |s.fleet| && s.target * s.layers <= CapacityFrom(s, i) && s.target <= |s.fleet| - i
    requires s.fleet[i].endpoint <= 0
    ensures !MemoInRange(s, memo)
  {
    SkippedAreSearched(s, memo, path, i);
    StartLeavesRange(s, i);
    assert StartState(s, Skipped(i)) in memo;
  }

  /** The cache and the action table of one run of the search. */
  class Table {
    const search: Search
    const suffix: seq<int>
    var memo: map<State, Cost>
    var path: map<State, Action>

    ghost predicate Valid()
      reads this
    {
      && |suffix| == |search.fleet| + 1
      && (forall i :: 0 <= i < |suffix| ==> suffix[i] == CapacityFrom(search, i))
      && TablesOk(search, memo, path)
    }

    constructor (s: Search)
      ensures Valid() && search == s && memo == map[] && path == map[]
    {
      var sums := [0];
      var i := |s.fleet|;
      while i > 0
        invariant 0 <= i <= |s.fleet| && |sums| == |s.fleet| - i + 1
        invariant forall q :: 0 <= q < |sums| ==> sums[q] == CapacityFrom(s, i + q)
      {
        i := i - 1;
        sums := [sums[0] + s.fleet[i].plain] + sums;
      }
      search, suffix, memo, path := s, sums, map[], map[];
    }

    predicate Prunes(st: State)
      requires Valid() && st.i <= |search.fleet|
      reads this
      ensures Prunes(st) == Pruned(search, st)
    {
      || NewNeeded(search, st) < 0
      || suffix[st.i] < Sum(st.open) + Max(0, NewNeeded(search, st)) * search.layers
      || st.finished + |st.open| + (|search.fleet| - st.i) < search.target
    }

    /** The state is in the documented range, and its successors will be. */
    ghost predicate Tame(st: State) {
      WellFormed(search) && RoomAtEndpoints(search) && AllInRange(search, st)
    }

    lemma ChoicesAreTame(st: State, next: State)
      requires Tame(st) && st.i < |search.fleet| && Steps(search, st, next)
      ensures Tame(next)
    {
      StepStaysInRange(search, st, next);
    }

    /** The cached recursion returns what the plain recursion does, and never forgets an entry. */
    method Solve(st: State) returns (cost: Cost)
      requires Valid() && st.i <= |search.fleet|
      modifies this
      ensures Valid() && st in memo && cost == Decide(search, st).cost
      ensures old(memo).Keys <= memo.Keys
      ensures Tame(st) && MemoInRange(search, old(memo)) ==> MemoInRange(search, memo)
      decreases |search.fleet| - st.i
    {
      if st in memo {
        assert EntryOk(search, memo, path, st);
        return memo[st];
      }
      if IsDone(search, st) {
        EntryAdded(search, memo, path, path[st := Done], st, Finite(0));
        path, memo, cost := path[st := Done], memo[st := Finite(0)], Finite(0);
      } else if st.i == |search.fleet| || Prunes(st) {
        EntryAdded(search, memo, path, path, st, Infinite);
        memo, cost := memo[st := Infinite], Infinite;
      } else {
        var best := Expand(st);
        EntryAdded(search, memo, path, path[st := best.action.value], st, best.cost);
        path, memo, cost := path[st := best.action.value], memo[st := best.cost], best.cost;
      }
    }

    /** Tries every choice of an unpruned state. */
    method Expand(st: State) returns (best: Decision)
      requires Valid() && Running(search, st) && !Pruned(search, st)
      modifies this
      ensures Valid() && ChoicesIn(search, memo, st) && old(memo).Keys <= memo.Keys
      ensures best == Decide(search, st) && best.action.Some?
      ensures Tame(st) && MemoInRange(search, old(memo)) ==> MemoInRange(search, memo)
      decreases |search.fleet| - st.i, 0
    {
      hide Table.Tame, MemoInRange, TablesOk, Decide, TryAssign, TryStart, AssignAction, StartAction, Sort, RemoveAt;
      ghost var before := memo.Keys;
      if Tame(st) {
        ChoicesAreTame(st, SkipState(st));
        ChoicesAreTame(st, StartState(search, st));
      }
      var cost := Solve(SkipState(st));
      best := Decision(cost, Some(Skip));
      ghost var skip := best;
      var j := 0;
      while j < |st.open|
        invariant 0 <= j <= |st.open| && Valid() && before <= memo.Keys
        invariant Tame(st) && MemoInRange(search, old(memo)) ==> MemoInRange(search, memo)
        invariant SkipState(st) in memo
        invariant forall q: nat :: q < j ==> AssignState(search, st, q) in memo
        invariant TryAssign(search, st, j, best) == TryAssign(search, st, 0, skip)
        invariant best.action.Some?
        decreases |st.open| - j
      {
        if Tame(st) {
          ChoicesAreTame(st, AssignState(search, st, j));
        }
        ScanStep(search, st, j, best);
        cost := Solve(AssignState(search, st, j));
        best := Better(best, OneMore(cost), AssignAction(search, st, j));
        j := j + 1;
      }
      ScanStep(search, st, j, best);
      ScanDecides(search, st, skip, best);
      if NewNeeded(search, st) > 0 {
        cost := Solve(StartState(search, st));
        best := Better(best, OneMore(cost), StartAction(search, st));
      }
    }
  }
}
