/** Which layers an open pipeline of the search can still miss. */
module ResidualRange {
  // The documentation of the dynamic program says 1 to L - 1.  That is so exactly when every node can hold a
  // layer next to an endpoint.

  import opened Ordering
  import opened PipelineSearch
  import opened PipelinePlans

  predicate InRange(s: Search, r: int) {
    1 <= r <= s.layers - 1
  }

  ghost predicate AllInRange(s: Search, st: State) {
    forall j :: 0 <= j < |st.open| ==> InRange(s, st.open[j])
  }

  /** Every node can hold a layer next to an endpoint. */
  predicate RoomAtEndpoints(s: Search) {
    forall i :: 0 <= i < |s.fleet| ==> s.fleet[i].endpoint > 0
  }

  // ----- pipelines -----

  lemma {:induction false} OpenStaysInRange(s: Search, p: seq<nat>)
    requires WellFormed(s) && RoomAtEndpoints(s) && StaysOpen(s, p)
    ensures InRange(s, Residual(s, p))
  {
    assert p[..|p|] == p;
    if |p| > 1 {
      var init := p[..|p| - 1];
      forall m | 0 < m <= |init| ensures Residual(s, init[..m]) > 0 {
        assert init[..m] == p[..m];
      }
      OpenStaysInRange(s, init);
    }
  }

  /** The documented range, for the pipelines themselves. */
  lemma ResidualsOfPipelines(s: Search)
    requires WellFormed(s)
    ensures (forall p :: StaysOpen(s, p) ==> InRange(s, Residual(s, p))) <==> RoomAtEndpoints(s)
  {
    if RoomAtEndpoints(s) {
      forall p | StaysOpen(s, p) ensures InRange(s, Residual(s, p)) {
        OpenStaysInRange(s, p);
      }
    } else {
      var i: nat :| i < |s.fleet| && s.fleet[i].endpoint <= 0;
      assert [i][..1] == [i];
      assert StaysOpen(s, [i]) && Residual(s, [i]) >= s.layers;
    }
  }

  // ----- states -----

  lemma SortKeepsRange(s: Search, xs: seq<int>)
    requires forall j :: 0 <= j < |xs| ==> InRange(s, xs[j])
    ensures forall j :: 0 <= j < |Sort(xs)| ==> InRange(s, Sort(xs)[j])
  {
    SortSorts(xs);
    forall j | 0 <= j < |Sort(xs)| ensures InRange(s, Sort(xs)[j]) {
      assert Sort(xs)[j] in multiset(Sort(xs));
      var q := FindIn(Sort(xs)[j], xs);
    }
  }

  /** No choice of the search leaves the range. */
  lemma StepStaysInRange(s: Search, st: State, next: State)
    requires WellFormed(s) && RoomAtEndpoints(s) && st.i < |s.fleet| && AllInRange(s, st) && Steps(s, st, next)
    ensures AllInRange(s, next)
  {
    if next == StartState(s, st) {
      var r := s.layers - s.fleet[st.i].endpoint;
      if r > 0 {
        SortKeepsRange(s, st.open + [r]);
      }
    } else if next != SkipState(st) {
      var j: nat :| j < |st.open| && next == AssignState(s, st, j);
      var r := After(st.open[j], s.fleet[st.i]);
      if r > 0 {
        SortKeepsRange(s, st.open[j := r]);
      }
    }
  }

  /** A course of the search: from the empty state, one choice after another. */
  ghost predicate Course(s: Search, course: seq<State>) {
    && course != [] && course[0] == Root()
    && forall k :: 0 <= k < |course| - 1 ==> Running(s, course[k]) && Steps(s, course[k], course[k + 1])
  }

  lemma {:induction false} CourseStaysInRange(s: Search, course: seq<State>, k: nat)
    requires WellFormed(s) && RoomAtEndpoints(s) && Course(s, course) && k < |course|
    ensures AllInRange(s, course[k])
  {
    if k > 0 {
      CourseStaysInRange(s, course, k - 1);
      assert Running(s, course[k - 1]) && Steps(s, course[k - 1], course[k - 1 + 1]);
      StepStaysInRange(s, course[k - 1], course[k]);
    }
  }

  /** The empty state after each of the first `i` nodes was skipped. */
  function Skipped(i: nat): State { State(i, [], 0) }

  function SkipCourse(i: nat): (course: seq<State>)
    ensures |course| == i + 1 && forall k :: 0 <= k <= i ==> course[k] == Skipped(k)
  {
    seq(i + 1, k requires 0 <= k <= i => Skipped(k))
  }

  /** Beginning a pipeline at a node without room leaves the range. */
  lemma StartLeavesRange(s: Search, i: nat)
    requires WellFormed(s) && i < |s.fleet| && s.fleet[i].endpoint <= 0
    ensures StartState(s, Skipped(i)).open == [s.layers - s.fleet[i].endpoint]
    ensures !AllInRange(s, StartState(s, Skipped(i)))
  {
    var r := s.layers - s.fleet[i].endpoint;
    SortSorts([] + [r]);
    var open := StartState(s, Skipped(i)).open;
    assert multiset(open) == multiset{r};
    assert |multiset(open)| == 1;
    assert open[0] in multiset(open);
  }

  /** The documented range, for the states the search can come to. */
  lemma ResidualsOfStates(s: Search)
    requires WellFormed(s) && s.target > 0
    ensures (forall course, k :: Course(s, course) && 0 <= k < |course| ==> AllInRange(s, course[k])) <==> RoomAtEndpoints(s)
  {
    if RoomAtEndpoints(s) {
      forall course, k | Course(s, course) && 0 <= k < |course| ensures AllInRange(s, course[k]) {
        CourseStaysInRange(s, course, k);
      }
    } else {
      var i: nat :| i < |s.fleet| && s.fleet[i].endpoint <= 0;
      var course := SkipCourse(i) + [StartState(s, Skipped(i))];
      StartLeavesRange(s, i);
      forall k | 0 <= k < |course| - 1 ensures Running(s, course[k]) && Steps(s, course[k], course[k + 1]) {
        assert course[k] == Skipped(k);
      }
      assert Course(s, course) && !AllInRange(s, course[i + 1]);
    }
  }
}
