// Topological order (include/flipsta/topological_order.hpp): the states in
// reverse order of finishing a depth-first traversal, or an error naming the
// state at which a cycle was found.
module TopologicalOrder {
  import opened Wrappers
  import opened Core
  import opened ExplicitAutomaton
  import opened Traverse

  /** The sequence in reverse. */
  function Reverse<T>(s: seq<T>): (r: seq<T>)
    ensures |r| == |s|
    ensures forall i :: 0 <= i < |s| ==> r[i] == s[|s| - 1 - i]
  {
    if s == [] then [] else Reverse(s[1..]) + [s[0]]
  }

  lemma ReverseAppend<T>(s: seq<T>, x: T)
    ensures Reverse(s + [x]) == [x] + Reverse(s)
  {
    assert forall i :: 0 <= i < |s| + 1 ==> Reverse(s + [x])[i] == ([x] + Reverse(s))[i];
  }

  /**
   * Every state exactly once, and every arc followed in direction d goes from
   * an earlier state to a later one.
   */
  ghost predicate IsTopologicalOrder<S, L>(a: AutomatonValue<S, L>, d: Direction, order: seq<S>)
  {
    && Distinct(order)
    && (forall i :: 0 <= i < |order| ==> order[i] in a.states)
    && (forall i :: 0 <= i < |a.states| ==> a.states[i] in order)
    && (forall i, j, arc ::
          (0 <= i < |order| && 0 <= j < |order| && arc in a.arcs &&
           order[i] == arc.State(Opposite(d)) && order[j] == arc.State(d)) ==> i < j)
  }

  /** Reversing the finishing order of a completed traversal without back states gives a topological order. */
  lemma ReversedFinishOrder<S, L>(a: AutomatonValue<S, L>, d: Direction, st: TraversalState<S, L>, finished: seq<S>)
    requires Inv(a, d, st, finished) && Ordered(a, d, st, finished) && st.Empty()
    ensures IsTopologicalOrder(a, d, Reverse(finished))
  {
    TraversalComplete(a, d, st, finished);
    ReverseSameElements(finished, a.states);
    ReverseRespectsArcs(a, d, finished);
  }

  lemma ReverseSameElements<T>(s: seq<T>, all: seq<T>)
    requires Distinct(s) && forall x :: x in s <==> x in all
    ensures Distinct(Reverse(s))
    ensures forall i :: 0 <= i < |s| ==> Reverse(s)[i] in all
    ensures forall i :: 0 <= i < |all| ==> all[i] in Reverse(s)
  {
    var order := Reverse(s);
    var n := |s|;
    forall i | 0 <= i < n ensures order[i] in all {
      assert s[n - 1 - i] in s;
    }
    forall i | 0 <= i < |all| ensures all[i] in order {
      assert all[i] in all;
      var j :| 0 <= j < n && s[j] == all[i];
      assert order[n - 1 - j] == all[i];
    }
    forall i, j | 0 <= i < j < n ensures order[i] != order[j] {
      assert s[n - 1 - j] != s[n - 1 - i];
    }
  }

  lemma ReverseRespectsArcs<S, L>(a: AutomatonValue<S, L>, d: Direction, finished: seq<S>)
    requires Distinct(finished)
    requires forall j, arc :: 0 <= j < |finished| && arc in a.arcs && arc.State(Opposite(d)) == finished[j] ==>
      arc.State(d) in finished[..j]
    ensures var order := Reverse(finished);
      forall i, j, arc ::
        (0 <= i < |order| && 0 <= j < |order| && arc in a.arcs &&
         order[i] == arc.State(Opposite(d)) && order[j] == arc.State(d)) ==> i < j
  {
    var order := Reverse(finished);
    var n := |finished|;
    forall i, j, arc | 0 <= i < n && 0 <= j < n && arc in a.arcs &&
        order[i] == arc.State(Opposite(d)) && order[j] == arc.State(d)
      ensures i < j
    {
      var fi := n - 1 - i;
      assert finished[fi] == arc.State(Opposite(d));
      assert arc.State(d) in finished[..fi];
      var k :| 0 <= k < fi && finished[..fi][k] == arc.State(d);
      assert finished[k] == arc.State(d) == finished[n - 1 - j];
    }
  }

  /** An automaton with a topological order has no cycle. */
  lemma TopologicalOrderAcyclic<S, L>(a: AutomatonValue<S, L>, d: Direction, order: seq<S>)
    requires a.Valid() && IsTopologicalOrder(a, d, order)
    ensures forall c :: !IsCycle(a, d, c)
  {
    forall c ensures !IsCycle(a, d, c) {
      OrderForbidsCycle(a, d, order, c);
    }
  }

  /** A topological order rules out every cycle: positions would have to rise all the way round. */
  lemma OrderForbidsCycle<S, L>(a: AutomatonValue<S, L>, d: Direction, order: seq<S>, c: seq<S>)
    requires a.Valid() && IsTopologicalOrder(a, d, order)
    ensures !IsCycle(a, d, c)
  {
    if |c| >= 2 && IsPath(a, d, c) {
      PositionsRise(a, d, order, c, |c| - 1);
      assert c[0] != c[|c| - 1];
    }
  }

  lemma {:induction false} PositionsRise<S, L>(a: AutomatonValue<S, L>, d: Direction, order: seq<S>, c: seq<S>, k: nat)
    requires a.Valid() && IsTopologicalOrder(a, d, order) && IsPath(a, d, c) && 1 <= k < |c|
    ensures c[0] in order && c[k] in order && IndexOf(order, c[0]) < IndexOf(order, c[k])
  {
    assert Edge(a, d, c[k - 1], c[k]);
    var arc :| arc in a.arcs && arc.State(Opposite(d)) == c[k - 1] && arc.State(d) == c[k];
    assert arc.source in a.states && arc.destination in a.states;
    assert c[k - 1] in order && c[k] in order;
    var i := IndexOf(order, c[k - 1]);
    var j := IndexOf(order, c[k]);
    assert i < j;
    if k > 1 {
      PositionsRise(a, d, order, c, k - 1);
    }
  }

  /**
   * The traversal that topologicalOrder drives, after n events: its state, the
   * states finished so far, and the state of the first back state reported,
   * after which it stops.
   */
  datatype Run<S(==), L> = Run(st: TraversalState<S, L>, finished: seq<S>, back: Option<S>)

  ghost function RunFor<S, L>(a: AutomatonValue<S, L>, d: Direction, n: nat): Run<S, L>
  {
    if n == 0 then Run(Start(a), [], None)
    else
      var run := RunFor(a, d, n - 1);
      if run.back.Some? || run.st.Empty() then run
      else
        var step := Chop(a, d, run.st);
        Run(step.next, Finished(run.finished, step.report),
            if step.report.event == BackState then Some(step.report.state) else None)
  }

  /** One more event of a run that has not stopped. */
  lemma RunNext<S, L>(a: AutomatonValue<S, L>, d: Direction, n: nat)
    requires RunFor(a, d, n).back.None? && !RunFor(a, d, n).st.Empty()
    ensures var step := Chop(a, d, RunFor(a, d, n).st);
      && RunFor(a, d, n + 1).st == step.next
      && RunFor(a, d, n + 1).finished == Finished(RunFor(a, d, n).finished, step.report)
      && RunFor(a, d, n + 1).back == if step.report.event == BackState then Some(step.report.state) else None
  {
  }

  /** A run that has stopped, at a back state or with nothing left, stays as it is. */
  lemma {:induction false} RunStays<S, L>(a: AutomatonValue<S, L>, d: Direction, n: nat, m: nat)
    requires n <= m && (RunFor(a, d, n).back.Some? || RunFor(a, d, n).st.Empty())
    ensures RunFor(a, d, m) == RunFor(a, d, n)
    decreases m - n
  {
    if n < m {
      RunStopped(a, d, n);
      RunStays(a, d, n + 1, m);
    }
  }

  /** One more event of a run that has stopped changes nothing. */
  lemma RunStopped<S, L>(a: AutomatonValue<S, L>, d: Direction, n: nat)
    requires RunFor(a, d, n).back.Some? || RunFor(a, d, n).st.Empty()
    ensures RunFor(a, d, n + 1) == RunFor(a, d, n)
  {
  }

  /** Two stopped runs are the same run: topologicalOrder has one outcome. */
  lemma StoppedRunsAgree<S, L>(a: AutomatonValue<S, L>, d: Direction, n: nat, m: nat)
    requires RunFor(a, d, n).back.Some? || RunFor(a, d, n).st.Empty()
    requires RunFor(a, d, m).back.Some? || RunFor(a, d, m).st.Empty()
    ensures RunFor(a, d, n) == RunFor(a, d, m)
  {
    if n <= m {
      RunStays(a, d, n, m);
    } else {
      RunStays(a, d, m, n);
    }
  }

  /** The order topologicalOrder returns: the states in reverse finishing order of a run that ended without a back state. */
  ghost predicate IsTraversalOrder<S, L>(a: AutomatonValue<S, L>, d: Direction, order: seq<S>)
  {
    exists n: nat :: RunFor(a, d, n).st.Empty() && RunFor(a, d, n).back.None? && order == Reverse(RunFor(a, d, n).finished)
  }

  /** The state topologicalOrder reports as lying on a cycle: the first back state of the run. */
  ghost predicate IsReportedBackState<S, L>(a: AutomatonValue<S, L>, d: Direction, s: S)
  {
    exists n: nat :: RunFor(a, d, n).back == Some(s)
  }

  /** The run has one outcome: at most one order, at most one back state, and never both. */
  lemma TraversalOutcomeUnique<S, L>(a: AutomatonValue<S, L>, d: Direction)
    ensures forall o1, o2 :: IsTraversalOrder(a, d, o1) && IsTraversalOrder(a, d, o2) ==> o1 == o2
    ensures forall s1, s2 :: IsReportedBackState(a, d, s1) && IsReportedBackState(a, d, s2) ==> s1 == s2
    ensures forall o, s :: !(IsTraversalOrder(a, d, o) && IsReportedBackState(a, d, s))
  {
    forall o1, o2 | IsTraversalOrder(a, d, o1) && IsTraversalOrder(a, d, o2) ensures o1 == o2 {
      var n :| RunFor(a, d, n).st.Empty() && RunFor(a, d, n).back.None? && o1 == Reverse(RunFor(a, d, n).finished);
      var m :| RunFor(a, d, m).st.Empty() && RunFor(a, d, m).back.None? && o2 == Reverse(RunFor(a, d, m).finished);
      StoppedRunsAgree(a, d, n, m);
    }
    forall s1, s2 | IsReportedBackState(a, d, s1) && IsReportedBackState(a, d, s2) ensures s1 == s2 {
      var n :| RunFor(a, d, n).back == Some(s1);
      var m :| RunFor(a, d, m).back == Some(s2);
      StoppedRunsAgree(a, d, n, m);
    }
    forall o, s ensures !(IsTraversalOrder(a, d, o) && IsReportedBackState(a, d, s)) {
      if IsTraversalOrder(a, d, o) && IsReportedBackState(a, d, s) {
        var n :| RunFor(a, d, n).st.Empty() && RunFor(a, d, n).back.None? && o == Reverse(RunFor(a, d, n).finished);
        var m :| RunFor(a, d, m).back == Some(s);
        StoppedRunsAgree(a, d, n, m);
      }
    }
  }

  /** Until a back state is reported, the traversal invariant and the order invariant hold. */
  lemma {:induction false} RunInv<S, L>(a: AutomatonValue<S, L>, d: Direction, n: nat)
    requires a.Valid()
    ensures var run := RunFor(a, d, n);
      && (run.back.None? ==> Inv(a, d, run.st, run.finished) && Ordered(a, d, run.st, run.finished))
      && (run.back.Some? ==> exists c :: IsCycle(a, d, c) && c[0] == run.back.value)
  {
    if n == 0 {
      StartInv(a, d);
    } else {
      var run := RunFor(a, d, n - 1);
      RunInv(a, d, n - 1);
      if run.back.None? && !run.st.Empty() {
        ChopStep(a, d, run.st, run.finished);
        if Chop(a, d, run.st).report.event == BackState {
          var c := ChopBackState(a, d, run.st, run.finished);
        } else {
          ChopOrdered(a, d, run.st, run.finished);
        }
      }
    }
  }

  /** A back state that the run reports is on a cycle through that state. */
  lemma BackStateCycleAt<S, L>(a: AutomatonValue<S, L>, d: Direction, n: nat) returns (c: seq<S>)
    requires a.Valid() && RunFor(a, d, n).back.None? && !RunFor(a, d, n).st.Empty()
    requires Chop(a, d, RunFor(a, d, n).st).report.event == BackState
    ensures IsCycle(a, d, c) && c[0] == Chop(a, d, RunFor(a, d, n).st).report.state
  {
    var run := RunFor(a, d, n);
    RunInv(a, d, n);
    c := ChopBackState(a, d, run.st, run.finished);
  }

  /** Each event before the end lowers the traversal's termination measure. */
  lemma RunMeasure<S, L>(a: AutomatonValue<S, L>, d: Direction, n: nat)
    requires a.Valid() && RunFor(a, d, n).back.None? && !RunFor(a, d, n).st.Empty()
    ensures MeasureDecreases(a, RunFor(a, d, n).st, RunFor(a, d, n + 1).st)
  {
    RunInv(a, d, n);
    ChopStep(a, d, RunFor(a, d, n).st, RunFor(a, d, n).finished);
  }

  /** A run that ends without a back state finishes every state in an order whose reverse is topological. */
  lemma RunComplete<S, L>(a: AutomatonValue<S, L>, d: Direction, n: nat)
    requires a.Valid() && RunFor(a, d, n).back.None? && RunFor(a, d, n).st.Empty()
    ensures IsTopologicalOrder(a, d, Reverse(RunFor(a, d, n).finished))
    ensures forall c :: !IsCycle(a, d, c)
  {
    var run := RunFor(a, d, n);
    RunInv(a, d, n);
    ReversedFinishOrder(a, d, run.st, run.finished);
    forall c ensures !IsCycle(a, d, c) {
      OrderForbidsCycle(a, d, Reverse(run.finished), c);
    }
  }

  /**
   * topologicalOrder for an automaton without a member implementation: push
   * each state to the front as it finishes, and fail on the first back state.
   */
  method TopologicalOrderAutomatic<S(==), L(==)>(a: AutomatonValue<S, L>, d: Direction)
    returns (r: Result<seq<S>, Error<S>>)
    requires a.Valid()
    ensures r.Ok? ==> IsTopologicalOrder(a, d, r.value)
    ensures r.Err? ==> r.error.AutomatonNotAcyclic? && exists c :: IsCycle(a, d, c) && c[0] == r.error.state
    ensures r.Ok? ==> forall c :: !IsCycle(a, d, c)
    ensures r.Ok? ==> IsTraversalOrder(a, d, r.value)
    ensures r.Err? ==> IsReportedBackState(a, d, r.error.state)
  {
    var traversal := new DepthFirstTraversal(a, d);
    var result := [];
    ghost var n := 0;
    while !traversal.Empty()
      invariant traversal.automaton == a && traversal.direction == d
      invariant traversal.State() == RunFor(a, d, n).st && RunFor(a, d, n).back.None?
      invariant result == Reverse(RunFor(a, d, n).finished)
      decreases |traversal.roots|, UnvisitedCount(a, traversal.State()), QueueWeight(traversal.queue)
    {
      RunMeasure(a, d, n);
      RunNext(a, d, n);
      var report := traversal.ChopInPlace();
      if report.event == BackState {
        ghost var cycle := BackStateCycleAt(a, d, n);
        assert IsCycle(a, d, cycle) && cycle[0] == report.state;
        r := Err(AutomatonNotAcyclic(report.state));
        return;
      }
      if report.event == FinishVisit {
        ReverseAppend(RunFor(a, d, n).finished, report.state);
        result := [report.state] + result;
      }
      n := n + 1;
    }
    RunComplete(a, d, n);
    r := Ok(result);
  }

  /** A member implementation of the automaton, when there is one, is used instead of the automatic one. */
  method TopologicalOrderOf<S(==), L(==)>(a: AutomatonValue<S, L>, d: Direction, member: Option<Result<seq<S>, Error<S>>>)
    returns (r: Result<seq<S>, Error<S>>)
    requires a.Valid()
    ensures member.Some? ==> r == member.value
    ensures member.None? && r.Ok? ==> IsTopologicalOrder(a, d, r.value)
    ensures member.None? && r.Err? ==> exists c :: IsCycle(a, d, c) && c[0] == r.error.state
    ensures member.None? && r.Ok? ==> IsTraversalOrder(a, d, r.value)
    ensures member.None? && r.Err? ==> IsReportedBackState(a, d, r.error.state)
  {
    if member.Some? {
      return member.value;
    }
    r := TopologicalOrderAutomatic(a, d);
  }
}
