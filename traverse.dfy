// Depth-first traversal of an automaton (include/flipsta/traverse.hpp) as a
// resumable state machine: each call to chop_in_place returns the next event
// of a depth-first search over all states, kept on an explicit stack.
module Traverse {
  import opened Core
  import opened ExplicitAutomaton

  datatype VisitStatus = Unvisited | Visiting | Visited

  datatype TraversalEvent =
    | NewRoot              // the state becomes the root of a new tree
    | Visit                // a newly discovered state is now being visited
    | FinishVisit          // the visit to the state has finished
    | BackState            // the state was rediscovered while being visited
    | ForwardOrCrossState  // the state was rediscovered after its visit finished

  datatype Report<S> = Report(state: S, event: TraversalEvent)

  /** A state on the explicit stack and the arcs on it that remain to be followed. */
  datatype Position<S, L> = Position(state: S, visiting: bool, arcs: seq<Arc<S, L>>)

  /** A visit-status map whose default is Unvisited. */
  function StatusIn<S(==)>(visitStatus: map<S, VisitStatus>, s: S): VisitStatus
  {
    if s in visitStatus then visitStatus[s] else Unvisited
  }

  /**
   * The fields of the traversal: the roots still to try (a suffix of the
   * states), the visit status of each state, and the stack, top last.
   */
  datatype TraversalState<S(==), L> = TraversalState(
    roots: seq<S>,
    visitStatus: map<S, VisitStatus>,
    queue: seq<Position<S, L>>)
  {
    function Status(s: S): VisitStatus
    {
      StatusIn(visitStatus, s)
    }

    predicate Empty()
    {
      queue == [] && roots == []
    }
  }

  datatype Step<S(==), L> = Step(next: TraversalState<S, L>, report: Report<S>)

  /** A new traversal: every state is a root to try, none visited, an empty stack. */
  function Start<S(==), L(==)>(a: AutomatonValue<S, L>): TraversalState<S, L>
  {
    TraversalState(a.states, map[], [])
  }

  /** Drop the roots that are no longer unvisited. */
  function SkipVisited<S(==)>(roots: seq<S>, visitStatus: map<S, VisitStatus>): (r: seq<S>)
    ensures |r| <= |roots| && r == roots[|roots| - |r|..]
    ensures r != [] ==> StatusIn(visitStatus, r[0]) == Unvisited
    ensures forall i :: 0 <= i < |roots| - |r| ==> StatusIn(visitStatus, roots[i]) != Unvisited
  {
    if roots == [] || StatusIn(visitStatus, roots[0]) == Unvisited then roots
    else
      var r := SkipVisited(roots[1..], visitStatus);
      SkippedOneMore(roots, visitStatus, r);
      r
  }

  /** Skipping the first root, which is not unvisited, before the roots that the rest skips. */
  lemma SkippedOneMore<S>(roots: seq<S>, visitStatus: map<S, VisitStatus>, r: seq<S>)
    requires roots != [] && StatusIn(visitStatus, roots[0]) != Unvisited
    requires |r| <= |roots| - 1 && r == roots[1..][|roots| - 1 - |r|..]
    requires forall i :: 0 <= i < |roots| - 1 - |r| ==> StatusIn(visitStatus, roots[1..][i]) != Unvisited
    ensures r == roots[|roots| - |r|..]
    ensures forall i :: 0 <= i < |roots| - |r| ==> StatusIn(visitStatus, roots[i]) != Unvisited
  {
    assert roots[1..][|roots| - 1 - |r|..] == roots[|roots| - |r|..];
    forall i | 0 <= i < |roots| - |r| ensures StatusIn(visitStatus, roots[i]) != Unvisited {
      if i > 0 {
        assert roots[i] == roots[1..][i - 1];
      }
    }
  }

  /** The position on top of the stack. */
  function Top<S(==), L>(st: TraversalState<S, L>): Position<S, L>
    requires st.queue != []
  {
    st.queue[|st.queue| - 1]
  }

  /** A new root: the first remaining root goes on the stack, not yet being visited, with all its arcs. */
  function StartRoot<S(==), L>(a: AutomatonValue<S, L>, d: Direction, st: TraversalState<S, L>): TraversalState<S, L>
    requires st.roots != []
  {
    TraversalState(st.roots[1..], st.visitStatus, [Position(st.roots[0], false, ArcsOn(a.arcs, d, st.roots[0]))])
  }

  /** The top of the stack starts being visited. */
  function MarkVisiting<S(==), L>(st: TraversalState<S, L>): TraversalState<S, L>
    requires st.queue != []
  {
    var top := Top(st);
    TraversalState(st.roots, st.visitStatus[top.state := Visiting], st.queue[|st.queue| - 1 := top.(visiting := true)])
  }

  /**
   * The top of the stack has no arcs left: it is finished and popped, and if
   * the stack is then empty the roots that are no longer unvisited are skipped.
   */
  function FinishTop<S(==), L>(st: TraversalState<S, L>): TraversalState<S, L>
    requires st.queue != []
  {
    var visitStatus := st.visitStatus[Top(st).state := Visited];
    var queue := st.queue[..|st.queue| - 1];
    var roots := if queue == [] then SkipVisited(st.roots, visitStatus) else st.roots;
    TraversalState(roots, visitStatus, queue)
  }

  /** The state that the next arc of the top of the stack leads to. */
  function ArcTarget<S(==), L>(d: Direction, st: TraversalState<S, L>): S
    requires st.queue != [] && Top(st).arcs != []
  {
    Top(st).arcs[0].State(d)
  }

  /** The next arc of the top of the stack is followed (chopped off). */
  function DropArc<S(==), L>(st: TraversalState<S, L>): TraversalState<S, L>
    requires st.queue != [] && Top(st).arcs != []
  {
    var top := Top(st);
    st.(queue := st.queue[|st.queue| - 1 := top.(arcs := top.arcs[1..])])
  }

  /** The arc leads to an unvisited state: it goes on the stack and is visited at once. */
  function Descend<S(==), L>(a: AutomatonValue<S, L>, d: Direction, st: TraversalState<S, L>): TraversalState<S, L>
    requires st.queue != [] && Top(st).arcs != []
  {
    var next := ArcTarget(d, st);
    TraversalState(st.roots, st.visitStatus[next := Visiting],
      DropArc(st).queue + [Position(next, true, ArcsOn(a.arcs, d, next))])
  }

  /** One call of chop_in_place: the next event and the state after it. */
  function Chop<S(==), L(==)>(a: AutomatonValue<S, L>, d: Direction, st: TraversalState<S, L>): Step<S, L>
    requires !st.Empty()
  {
    if st.queue == [] then Step(StartRoot(a, d, st), Report(st.roots[0], NewRoot))
    else
      var top := Top(st);
      if !top.visiting then Step(MarkVisiting(st), Report(top.state, Visit))
      else if top.arcs == [] then Step(FinishTop(st), Report(top.state, FinishVisit))
      else
        var next := ArcTarget(d, st);
        match st.Status(next)
        case Unvisited => Step(Descend(a, d, st), Report(next, Visit))
        case Visiting => Step(DropArc(st), Report(next, BackState))
        case Visited => Step(DropArc(st), Report(next, ForwardOrCrossState))
  }

  /* Invariants of the traversal, with `finished` the states whose visit has finished, in order. */

  /** There is an arc from u to v when following direction d. */
  ghost predicate Edge<S, L>(a: AutomatonValue<S, L>, d: Direction, u: S, v: S)
  {
    exists arc :: arc in a.arcs && arc.State(Opposite(d)) == u && arc.State(d) == v
  }

  /** Every state of c is joined to the next one by an arc. */
  ghost predicate IsPath<S, L>(a: AutomatonValue<S, L>, d: Direction, c: seq<S>)
  {
    forall k :: 0 <= k < |c| - 1 ==> Edge(a, d, c[k], c[k + 1])
  }

  /** A closed path of at least one arc. */
  ghost predicate IsCycle<S, L>(a: AutomatonValue<S, L>, d: Direction, c: seq<S>)
  {
    |c| >= 2 && c[0] == c[|c| - 1] && IsPath(a, d, c)
  }

  ghost predicate IsSuffix<T>(x: seq<T>, y: seq<T>)
  {
    |x| <= |y| && x == y[|y| - |x|..]
  }

  /** The arcs of `all` that have been followed when `remaining` are left. */
  function Processed<T>(all: seq<T>, remaining: seq<T>): seq<T>
  {
    if |remaining| <= |all| then all[..|all| - |remaining|] else []
  }

  /** The states on the stack, bottom first. */
  function StackStates<S, L>(q: seq<Position<S, L>>): (r: seq<S>)
    ensures |r| == |q| && forall i :: 0 <= i < |q| ==> r[i] == q[i].state
  {
    seq(|q|, i requires 0 <= i < |q| => q[i].state)
  }

  /**
   * The roots left are a suffix of the states; with an empty stack the next
   * root is unvisited; every state before the roots left has been reached, or
   * is the new root waiting alone on the stack.
   */
  ghost predicate RootsInv<S, L>(a: AutomatonValue<S, L>, st: TraversalState<S, L>)
  {
    && |st.roots| <= |a.states| && st.roots == a.states[|a.states| - |st.roots|..]
    && (st.queue == [] && st.roots != [] ==> st.Status(st.roots[0]) == Unvisited)
    && (forall i :: 0 <= i < |a.states| - |st.roots| ==>
          st.Status(a.states[i]) != Unvisited ||
          (|st.queue| == 1 && !st.queue[0].visiting && st.queue[0].state == a.states[i]))
  }

  /** Each position's state is a state of the automaton and its arcs left are a suffix of the state's arcs. */
  ghost predicate StackArcs<S, L>(a: AutomatonValue<S, L>, d: Direction, q: seq<Position<S, L>>)
  {
    forall i :: 0 <= i < |q| ==> q[i].state in a.states && IsSuffix(q[i].arcs, ArcsOn(a.arcs, d, q[i].state))
  }

  /** A position not yet being visited is alone on the stack, with all its arcs left. */
  ghost predicate StackLone<S, L>(a: AutomatonValue<S, L>, d: Direction, q: seq<Position<S, L>>)
  {
    forall i :: 0 <= i < |q| && !q[i].visiting ==> |q| == 1 && q[i].arcs == ArcsOn(a.arcs, d, q[i].state)
  }

  /** A position's state is being visited exactly when the position is, and is unvisited otherwise. */
  ghost predicate StackStatus<S, L>(st: TraversalState<S, L>)
  {
    forall i :: 0 <= i < |st.queue| ==>
      st.Status(st.queue[i].state) == if st.queue[i].visiting then Visiting else Unvisited
  }

  /** The stack is a path of distinct states. */
  ghost predicate QueueInv<S, L>(a: AutomatonValue<S, L>, d: Direction, st: TraversalState<S, L>)
  {
    && StackArcs(a, d, st.queue)
    && StackLone(a, d, st.queue)
    && StackStatus(st)
    && Distinct(StackStates(st.queue))
    && IsPath(a, d, StackStates(st.queue))
  }

  /**
   * The states being visited are those on the stack, the visited ones those
   * finished, each finished once, all of them states of the automaton.
   */
  ghost predicate StatusInv<S, L>(a: AutomatonValue<S, L>, st: TraversalState<S, L>, finished: seq<S>)
  {
    && (forall s :: s in st.visitStatus && st.visitStatus[s] == Visiting ==> s in StackStates(st.queue))
    && (forall s :: s in st.visitStatus && st.visitStatus[s] == Visited ==> s in finished)
    && (forall j :: 0 <= j < |finished| ==> st.Status(finished[j]) == Visited)
    && Distinct(finished)
    && (forall s :: s in finished ==> s in a.states)
  }

  ghost predicate Inv<S, L>(a: AutomatonValue<S, L>, d: Direction, st: TraversalState<S, L>, finished: seq<S>)
  {
    a.Valid() && RootsInv(a, st) && QueueInv(a, d, st) && StatusInv(a, st, finished)
  }

  /**
   * What holds as long as no back state has been met: every finished state's
   * arcs lead to states finished before it, and every arc followed from a state
   * on the stack leads to a finished state or to the state just above it.
   */
  ghost predicate Ordered<S, L>(a: AutomatonValue<S, L>, d: Direction, st: TraversalState<S, L>, finished: seq<S>)
  {
    && (forall j, arc :: 0 <= j < |finished| && arc in a.arcs && arc.State(Opposite(d)) == finished[j] ==>
          arc.State(d) in finished[..j])
    && (forall i, arc :: 0 <= i < |st.queue| && arc in Processed(ArcsOn(a.arcs, d, st.queue[i].state), st.queue[i].arcs) ==>
          Handled(st.queue, finished, i, arc.State(d)))
  }

  /** A state reached from position i is finished or is the state just above i on the stack. */
  ghost predicate Handled<S, L>(q: seq<Position<S, L>>, finished: seq<S>, i: nat, target: S)
  {
    target in finished || (i + 1 < |q| && target == q[i + 1].state)
  }

  function QueueWeight<S, L>(q: seq<Position<S, L>>): nat
  {
    if q == [] then 0 else QueueWeight(q[..|q| - 1]) + |q[|q| - 1].arcs| + 1
  }

  ghost function UnvisitedCount<S, L>(a: AutomatonValue<S, L>, st: TraversalState<S, L>): nat
  {
    |set i | 0 <= i < |a.states| && st.Status(a.states[i]) == Unvisited|
  }

  /** Lexicographic decrease of (roots left, unvisited states, stack weight). */
  ghost predicate MeasureDecreases<S, L>(a: AutomatonValue<S, L>, before: TraversalState<S, L>, after: TraversalState<S, L>)
  {
    || |after.roots| < |before.roots|
    || (|after.roots| == |before.roots| && UnvisitedCount(a, after) < UnvisitedCount(a, before))
    || (|after.roots| == |before.roots| && UnvisitedCount(a, after) == UnvisitedCount(a, before) &&
        QueueWeight(after.queue) < QueueWeight(before.queue))
  }

  /** The finished states after a report: a finished visit appends its state. */
  function Finished<S>(finished: seq<S>, r: Report<S>): seq<S>
  {
    if r.event == FinishVisit then finished + [r.state] else finished
  }

  lemma StartInv<S, L>(a: AutomatonValue<S, L>, d: Direction)
    requires a.Valid()
    ensures Inv(a, d, Start(a), []) && Ordered(a, d, Start(a), [])
  {
  }

  lemma SubsetSmaller(x: set<int>, y: set<int>, k: int)
    requires x <= y && k in y && k !in x
    ensures |x| < |y|
  {
    assert y == x + (y - x);
    assert x * (y - x) == {};
    assert k in y - x;
  }

  /** A state leaving Unvisited, and no other state entering it, lowers the count. */
  lemma CountDrops<S, L>(a: AutomatonValue<S, L>, st: TraversalState<S, L>, st': TraversalState<S, L>, s: S)
    requires s in a.states && st.Status(s) == Unvisited && st'.Status(s) != Unvisited
    requires forall t :: t != s ==> st'.Status(t) == st.Status(t)
    ensures UnvisitedCount(a, st') < UnvisitedCount(a, st)
  {
    var k :| 0 <= k < |a.states| && a.states[k] == s;
    var after := set i | 0 <= i < |a.states| && st'.Status(a.states[i]) == Unvisited;
    var before := set i | 0 <= i < |a.states| && st.Status(a.states[i]) == Unvisited;
    SubsetSmaller(after, before, k);
  }

  lemma CountSame<S, L>(a: AutomatonValue<S, L>, st: TraversalState<S, L>, st': TraversalState<S, L>)
    requires forall t :: (st'.Status(t) == Unvisited) == (st.Status(t) == Unvisited)
    ensures UnvisitedCount(a, st') == UnvisitedCount(a, st)
  {
    assert (set i | 0 <= i < |a.states| && st'.Status(a.states[i]) == Unvisited) ==
           (set i | 0 <= i < |a.states| && st.Status(a.states[i]) == Unvisited);
  }

  lemma QueueWeightReplaceTop<S, L>(q: seq<Position<S, L>>, p: Position<S, L>)
    requires q != []
    ensures QueueWeight(q[|q| - 1 := p]) + |q[|q| - 1].arcs| == QueueWeight(q) + |p.arcs|
  {
    assert q[|q| - 1 := p][..|q| - 1] == q[..|q| - 1];
  }

  lemma ProcessedOneMore<T>(all: seq<T>, remaining: seq<T>)
    requires IsSuffix(remaining, all) && remaining != []
    ensures IsSuffix(remaining[1..], all)
    ensures Processed(all, remaining[1..]) == Processed(all, remaining) + [remaining[0]]
  {
    var k := |all| - |remaining|;
    assert all[k] == remaining[0];
    assert all[..k + 1] == all[..k] + [all[k]];
  }

  lemma PathPrefix<S, L>(a: AutomatonValue<S, L>, d: Direction, c: seq<S>, n: nat)
    requires IsPath(a, d, c) && Distinct(c) && n <= |c|
    ensures IsPath(a, d, c[..n]) && Distinct(c[..n])
  {
  }

  lemma PathSuffix<S, L>(a: AutomatonValue<S, L>, d: Direction, c: seq<S>, n: nat)
    requires IsPath(a, d, c) && n <= |c|
    ensures IsPath(a, d, c[n..])
  {
    forall k | 0 <= k < |c[n..]| - 1 ensures Edge(a, d, c[n..][k], c[n..][k + 1]) {
      assert c[n..][k] == c[n + k] && c[n..][k + 1] == c[n + k + 1];
    }
  }

  lemma DistinctAppend<T>(c: seq<T>, v: T)
    requires Distinct(c) && v !in c
    ensures Distinct(c + [v])
  {
  }

  lemma PathAppend<S, L>(a: AutomatonValue<S, L>, d: Direction, c: seq<S>, v: S)
    requires IsPath(a, d, c) && c != [] && Edge(a, d, c[|c| - 1], v)
    ensures IsPath(a, d, c + [v])
  {
    var c' := c + [v];
    forall k | 0 <= k < |c'| - 1 ensures Edge(a, d, c'[k], c'[k + 1]) {
      if k < |c| - 1 {
        assert c'[k] == c[k] && c'[k + 1] == c[k + 1];
      }
    }
  }

  /** With every position being visited, no position is alone and unvisited. */
  lemma AllVisitingLone<S, L>(a: AutomatonValue<S, L>, d: Direction, q: seq<Position<S, L>>)
    requires forall i :: 0 <= i < |q| ==> q[i].visiting
    ensures StackLone(a, d, q)
  {
  }

  /* The new-root step. */

  lemma StartRootRoots<S, L>(a: AutomatonValue<S, L>, d: Direction, st: TraversalState<S, L>)
    requires RootsInv(a, st) && st.queue == [] && st.roots != []
    ensures RootsInv(a, StartRoot(a, d, st))
  {
    var k := |a.states| - |st.roots|;
    assert st.roots[0] == a.states[k];
  }

  lemma StartRootQueue<S, L>(a: AutomatonValue<S, L>, d: Direction, st: TraversalState<S, L>)
    requires RootsInv(a, st) && st.queue == [] && st.roots != []
    ensures QueueInv(a, d, StartRoot(a, d, st))
  {
    var k := |a.states| - |st.roots|;
    assert st.roots[0] == a.states[k];
    assert StackStates(StartRoot(a, d, st).queue) == [st.roots[0]];
  }

  lemma StartRootStatus<S, L>(a: AutomatonValue<S, L>, d: Direction, st: TraversalState<S, L>, finished: seq<S>)
    requires StatusInv(a, st, finished) && st.queue == [] && st.roots != []
    ensures StatusInv(a, StartRoot(a, d, st), finished)
  {
    assert StackStates(st.queue) == [];
  }

  lemma StartRootOrdered<S, L>(a: AutomatonValue<S, L>, d: Direction, st: TraversalState<S, L>, finished: seq<S>)
    requires Ordered(a, d, st, finished) && st.queue == [] && st.roots != []
    ensures Ordered(a, d, StartRoot(a, d, st), finished)
  {
    var q := StartRoot(a, d, st).queue;
    assert Processed(q[0].arcs, q[0].arcs) == [];
  }

  lemma StartRootInv<S, L>(a: AutomatonValue<S, L>, d: Direction, st: TraversalState<S, L>, finished: seq<S>)
    requires Inv(a, d, st, finished) && st.queue == [] && st.roots != []
    ensures Inv(a, d, StartRoot(a, d, st), finished)
    ensures MeasureDecreases(a, st, StartRoot(a, d, st))
  {
    StartRootRoots(a, d, st);
    StartRootQueue(a, d, st);
    StartRootStatus(a, d, st, finished);
  }

  /* The step that starts visiting the top of the stack. */

  /** A position that is not yet being visited is alone on the stack and its state is unvisited. */
  lemma NotVisitingTop<S, L>(a: AutomatonValue<S, L>, d: Direction, st: TraversalState<S, L>, finished: seq<S>)
    requires Inv(a, d, st, finished) && st.queue != [] && !Top(st).visiting
    ensures |st.queue| == 1 && st.Status(Top(st).state) == Unvisited && Top(st).state in a.states
  {
    var n := |st.queue| - 1;
    assert !st.queue[n].visiting;
  }

  lemma MarkVisitingRoots<S, L>(a: AutomatonValue<S, L>, st: TraversalState<S, L>)
    requires RootsInv(a, st) && |st.queue| == 1 && !st.queue[0].visiting
    ensures RootsInv(a, MarkVisiting(st))
  {
  }

  lemma MarkVisitingQueue<S, L>(a: AutomatonValue<S, L>, d: Direction, st: TraversalState<S, L>)
    requires |st.queue| == 1 && st.queue[0].state in a.states
    requires IsSuffix(st.queue[0].arcs, ArcsOn(a.arcs, d, st.queue[0].state))
    ensures QueueInv(a, d, MarkVisiting(st))
  {
    var p := st.queue[0];
    var q := MarkVisiting(st).queue;
    assert q == [p.(visiting := true)];
    assert StackStates(q) == [p.state];
  }

  lemma MarkVisitingStatus<S, L>(a: AutomatonValue<S, L>, st: TraversalState<S, L>, finished: seq<S>)
    requires StatusInv(a, st, finished) && |st.queue| == 1 && !st.queue[0].visiting
    requires st.Status(st.queue[0].state) == Unvisited
    ensures StatusInv(a, MarkVisiting(st), finished)
  {
    var nx := MarkVisiting(st);
    assert StackStates(nx.queue) == StackStates(st.queue) == [st.queue[0].state];
  }

  lemma MarkVisitingOrdered<S, L>(a: AutomatonValue<S, L>, d: Direction, st: TraversalState<S, L>, finished: seq<S>)
    requires QueueInv(a, d, st) && Ordered(a, d, st, finished) && |st.queue| == 1 && !st.queue[0].visiting
    ensures Ordered(a, d, MarkVisiting(st), finished)
  {
    assert Processed(ArcsOn(a.arcs, d, Top(st).state), Top(st).arcs) == [];
  }

  lemma MarkVisitingInv<S, L>(a: AutomatonValue<S, L>, d: Direction, st: TraversalState<S, L>, finished: seq<S>)
    requires Inv(a, d, st, finished) && st.queue != [] && !Top(st).visiting
    ensures |st.queue| == 1 && st.Status(Top(st).state) == Unvisited
    ensures Inv(a, d, MarkVisiting(st), finished)
    ensures MeasureDecreases(a, st, MarkVisiting(st))
  {
    NotVisitingTop(a, d, st, finished);
    MarkVisitingRoots(a, st);
    MarkVisitingQueue(a, d, st);
    MarkVisitingStatus(a, st, finished);
    CountDrops(a, st, MarkVisiting(st), Top(st).state);
  }

  /** While the top of the stack is being visited, every position on it is. */
  lemma VisitingTop<S, L>(a: AutomatonValue<S, L>, d: Direction, st: TraversalState<S, L>, finished: seq<S>)
    requires Inv(a, d, st, finished) && st.queue != [] && Top(st).visiting
    ensures forall i :: 0 <= i < |st.queue| ==> st.queue[i].visiting
    ensures forall i :: 0 <= i < |st.queue| ==> st.Status(st.queue[i].state) == Visiting
    ensures Top(st).state in a.states
  {
    var n := |st.queue| - 1;
    assert st.queue[n].visiting;
  }

  /* The step that finishes the top of the stack. */

  lemma FinishTopRoots<S, L>(a: AutomatonValue<S, L>, st: TraversalState<S, L>)
    requires RootsInv(a, st) && st.queue != [] && forall i :: 0 <= i < |st.queue| ==> st.queue[i].visiting
    requires st.Status(Top(st).state) == Visiting
    ensures RootsInv(a, FinishTop(st))
  {
    var nx := FinishTop(st);
    var k := |a.states| - |st.roots|;
    FinishTopReached(a, st);
    if nx.queue != [] {
      assert nx.roots == st.roots;
    } else {
      var r := nx.roots;
      assert r == SkipVisited(st.roots, nx.visitStatus);
      assert a.states[|a.states| - |st.roots|..][|st.roots| - |r|..] == a.states[|a.states| - |r|..];
      forall i | k <= i < |a.states| - |r| ensures nx.Status(a.states[i]) != Unvisited {
        assert a.states[i] == st.roots[i - k];
      }
    }
  }

  /** Finishing the top leaves every state reached before the roots left still reached. */
  lemma FinishTopReached<S, L>(a: AutomatonValue<S, L>, st: TraversalState<S, L>)
    requires RootsInv(a, st) && st.queue != [] && forall i :: 0 <= i < |st.queue| ==> st.queue[i].visiting
    requires st.Status(Top(st).state) == Visiting
    ensures forall i :: 0 <= i < |a.states| - |st.roots| ==> FinishTop(st).Status(a.states[i]) != Unvisited
  {
    var nx := FinishTop(st);
    forall i | 0 <= i < |a.states| - |st.roots| ensures nx.Status(a.states[i]) != Unvisited {
      assert st.Status(a.states[i]) != Unvisited;
    }
  }

  lemma FinishTopStack<S, L>(a: AutomatonValue<S, L>, d: Direction, st: TraversalState<S, L>)
    requires QueueInv(a, d, st) && st.queue != [] && forall i :: 0 <= i < |st.queue| ==> st.queue[i].visiting
    ensures var q := FinishTop(st).queue;
      StackArcs(a, d, q) && StackLone(a, d, q) && Distinct(StackStates(q)) && IsPath(a, d, StackStates(q))
  {
    var n := |st.queue| - 1;
    var q := FinishTop(st).queue;
    assert StackStates(q) == StackStates(st.queue)[..n];
    PathPrefix(a, d, StackStates(st.queue), n);
    AllVisitingLone(a, d, q);
  }

  lemma FinishTopStatusOfStack<S, L>(a: AutomatonValue<S, L>, d: Direction, st: TraversalState<S, L>)
    requires QueueInv(a, d, st) && st.queue != [] && forall i :: 0 <= i < |st.queue| ==> st.queue[i].visiting
    ensures StackStatus(FinishTop(st))
  {
    var n := |st.queue| - 1;
    var nx := FinishTop(st);
    forall i | 0 <= i < |nx.queue| ensures nx.Status(nx.queue[i].state) == Visiting {
      assert StackStates(st.queue)[i] != StackStates(st.queue)[n];
      assert st.Status(st.queue[i].state) == Visiting;
    }
  }

  lemma FinishTopStatus<S, L>(a: AutomatonValue<S, L>, st: TraversalState<S, L>, finished: seq<S>)
    requires StatusInv(a, st, finished) && st.queue != []
    requires st.Status(Top(st).state) == Visiting && Top(st).state in a.states
    requires Distinct(StackStates(st.queue))
    ensures StatusInv(a, FinishTop(st), finished + [Top(st).state])
  {
    var n := |st.queue| - 1;
    var nx := FinishTop(st);
    var top := Top(st).state;
    var fin := finished + [top];
    assert StackStates(nx.queue) == StackStates(st.queue)[..n];
    assert StackStates(st.queue) == StackStates(nx.queue) + [top];
    assert top !in finished by {
      forall j | 0 <= j < |finished| ensures finished[j] != top {
        assert st.Status(finished[j]) == Visited;
      }
    }
    forall j | 0 <= j < |fin| ensures nx.Status(fin[j]) == Visited {
      if j < |finished| {
        assert fin[j] == finished[j];
        assert st.Status(finished[j]) == Visited;
      }
    }
  }

  lemma OrderedAt<S, L>(a: AutomatonValue<S, L>, d: Direction, st: TraversalState<S, L>, finished: seq<S>, i: nat, arc: Arc<S, L>)
    requires Ordered(a, d, st, finished) && i < |st.queue|
    requires arc in Processed(ArcsOn(a.arcs, d, st.queue[i].state), st.queue[i].arcs)
    ensures Handled(st.queue, finished, i, arc.State(d))
  {
  }

  lemma FinishTopOrdered<S, L>(a: AutomatonValue<S, L>, d: Direction, st: TraversalState<S, L>, finished: seq<S>)
    requires Ordered(a, d, st, finished) && st.queue != [] && Top(st).arcs == []
    ensures Ordered(a, d, FinishTop(st), finished + [Top(st).state])
  {
    var n := |st.queue| - 1;
    var nx := FinishTop(st);
    var top := Top(st).state;
    var fin := finished + [top];
    ArcsOnMembers(a.arcs, d, top);
    assert Processed(ArcsOn(a.arcs, d, top), st.queue[n].arcs) == ArcsOn(a.arcs, d, top);
    forall j, arc | 0 <= j < |fin| && arc in a.arcs && arc.State(Opposite(d)) == fin[j]
      ensures arc.State(d) in fin[..j]
    {
      if j < |finished| {
        assert fin[j] == finished[j] && fin[..j] == finished[..j];
      } else {
        OrderedAt(a, d, st, finished, n, arc);
        assert fin[..j] == finished;
      }
    }
    forall i, arc | 0 <= i < |nx.queue| && arc in Processed(ArcsOn(a.arcs, d, nx.queue[i].state), nx.queue[i].arcs)
      ensures Handled(nx.queue, fin, i, arc.State(d))
    {
      assert nx.queue[i] == st.queue[i];
      if i + 1 == n {
        assert st.queue[i + 1].state == top;
      }
    }
  }

  lemma FinishTopInv<S, L>(a: AutomatonValue<S, L>, d: Direction, st: TraversalState<S, L>, finished: seq<S>)
    requires Inv(a, d, st, finished) && st.queue != [] && Top(st).visiting && Top(st).arcs == []
    ensures st.Status(Top(st).state) == Visiting
    ensures Inv(a, d, FinishTop(st), finished + [Top(st).state])
    ensures MeasureDecreases(a, st, FinishTop(st))
  {
    VisitingTop(a, d, st, finished);
    FinishTopRoots(a, st);
    FinishTopStack(a, d, st);
    FinishTopStatusOfStack(a, d, st);
    FinishTopStatus(a, st, finished);
    FinishTopMeasure(a, st);
  }

  lemma FinishTopMeasure<S, L>(a: AutomatonValue<S, L>, st: TraversalState<S, L>)
    requires st.queue != [] && st.Status(Top(st).state) == Visiting
    ensures MeasureDecreases(a, st, FinishTop(st))
  {
    CountSame(a, st, FinishTop(st));
    assert FinishTop(st).queue == st.queue[..|st.queue| - 1];
  }

  /* Following an arc. */

  /** The next arc of the top of the stack is an arc of the automaton out of the top's state. */
  lemma NextArc<S, L>(a: AutomatonValue<S, L>, d: Direction, st: TraversalState<S, L>)
    requires a.Valid() && StackArcs(a, d, st.queue) && st.queue != [] && Top(st).arcs != []
    ensures Top(st).arcs[0] in a.arcs && Top(st).arcs[0].State(Opposite(d)) == Top(st).state
    ensures Edge(a, d, Top(st).state, ArcTarget(d, st)) && ArcTarget(d, st) in a.states
  {
    var n := |st.queue| - 1;
    var all := ArcsOn(a.arcs, d, Top(st).state);
    var arc := Top(st).arcs[0];
    assert IsSuffix(st.queue[n].arcs, all);
    assert arc == all[|all| - |Top(st).arcs|];
    ArcsOnMembers(a.arcs, d, Top(st).state);
    assert arc in a.arcs && arc.State(Opposite(d)) == Top(st).state;
    assert arc.source in a.states && arc.destination in a.states;
  }

  lemma DropArcStack<S, L>(a: AutomatonValue<S, L>, d: Direction, st: TraversalState<S, L>)
    requires StackArcs(a, d, st.queue) && st.queue != [] && Top(st).arcs != []
    ensures StackArcs(a, d, DropArc(st).queue)
    ensures StackStates(DropArc(st).queue) == StackStates(st.queue)
    ensures forall i :: 0 <= i < |st.queue| ==> DropArc(st).queue[i].visiting == st.queue[i].visiting
    ensures QueueWeight(DropArc(st).queue) < QueueWeight(st.queue)
    ensures Processed(ArcsOn(a.arcs, d, Top(st).state), Top(DropArc(st)).arcs) ==
      Processed(ArcsOn(a.arcs, d, Top(st).state), Top(st).arcs) + [Top(st).arcs[0]]
  {
    var n := |st.queue| - 1;
    assert IsSuffix(st.queue[n].arcs, ArcsOn(a.arcs, d, Top(st).state));
    ProcessedOneMore(ArcsOn(a.arcs, d, Top(st).state), Top(st).arcs);
    QueueWeightReplaceTop(st.queue, Top(st).(arcs := Top(st).arcs[1..]));
  }

  /* The step that follows an arc to an unvisited state. */

  lemma DescendRoots<S, L>(a: AutomatonValue<S, L>, d: Direction, st: TraversalState<S, L>)
    requires RootsInv(a, st) && st.queue != [] && Top(st).arcs != []
    requires forall i :: 0 <= i < |st.queue| ==> st.queue[i].visiting
    ensures RootsInv(a, Descend(a, d, st))
  {
    var nx := Descend(a, d, st);
    forall i | 0 <= i < |a.states| - |nx.roots| ensures nx.Status(a.states[i]) != Unvisited {
      assert st.Status(a.states[i]) != Unvisited;
    }
  }

  lemma DescendStack<S, L>(a: AutomatonValue<S, L>, d: Direction, st: TraversalState<S, L>)
    requires a.Valid() && QueueInv(a, d, st) && st.queue != [] && Top(st).arcs != []
    requires forall i :: 0 <= i < |st.queue| ==> st.queue[i].visiting
    requires forall i :: 0 <= i < |st.queue| ==> st.Status(st.queue[i].state) == Visiting
    requires st.Status(ArcTarget(d, st)) == Unvisited
    ensures var q := Descend(a, d, st).queue;
      StackArcs(a, d, q) && StackLone(a, d, q) && Distinct(StackStates(q)) && IsPath(a, d, StackStates(q))
    ensures StackStates(Descend(a, d, st).queue) == StackStates(st.queue) + [ArcTarget(d, st)]
  {
    var nx := Descend(a, d, st);
    var next := ArcTarget(d, st);
    var states := StackStates(st.queue);
    NextArc(a, d, st);
    DropArcStack(a, d, st);
    assert StackStates(nx.queue) == states + [next];
    assert next !in states by {
      forall i | 0 <= i < |states| ensures states[i] != next {
        assert st.Status(st.queue[i].state) == Visiting;
      }
    }
    assert states[|states| - 1] == Top(st).state;
    PathAppend(a, d, states, next);
    DistinctAppend(states, next);
    AllVisitingLone(a, d, nx.queue);
  }

  lemma DescendStatusOfStack<S, L>(a: AutomatonValue<S, L>, d: Direction, st: TraversalState<S, L>)
    requires st.queue != [] && Top(st).arcs != []
    requires forall i :: 0 <= i < |st.queue| ==> st.queue[i].visiting
    requires forall i :: 0 <= i < |st.queue| ==> st.Status(st.queue[i].state) == Visiting
    requires st.Status(ArcTarget(d, st)) == Unvisited
    ensures StackStatus(Descend(a, d, st))
  {
    var nx := Descend(a, d, st);
    var n := |st.queue| - 1;
    forall i | 0 <= i < |nx.queue| ensures nx.Status(nx.queue[i].state) == Visiting {
      if i <= n {
        assert nx.queue[i].state == st.queue[i].state;
        assert st.Status(st.queue[i].state) == Visiting;
      }
    }
  }

  lemma DescendStatus<S, L>(a: AutomatonValue<S, L>, d: Direction, st: TraversalState<S, L>, finished: seq<S>)
    requires StatusInv(a, st, finished) && st.queue != [] && Top(st).arcs != []
    requires st.Status(ArcTarget(d, st)) == Unvisited
    requires StackStates(Descend(a, d, st).queue) == StackStates(st.queue) + [ArcTarget(d, st)]
    ensures StatusInv(a, Descend(a, d, st), finished)
  {
    var nx := Descend(a, d, st);
    forall j | 0 <= j < |finished| ensures nx.Status(finished[j]) == Visited {
      assert st.Status(finished[j]) == Visited;
    }
  }

  /** A state handled from position i stays handled when the position above i keeps its state. */
  lemma HandledKept<S, L>(q: seq<Position<S, L>>, q': seq<Position<S, L>>, finished: seq<S>, i: nat, target: S)
    requires Handled(q, finished, i, target)
    requires i + 1 < |q| ==> i + 1 < |q'| && q'[i + 1].state == q[i + 1].state
    ensures Handled(q', finished, i, target)
  {
  }

  /** Below the old top, descending changes no position and no state above one. */
  lemma DescendBelowHandled<S, L>(a: AutomatonValue<S, L>, d: Direction, st: TraversalState<S, L>, finished: seq<S>, i: nat, arc: Arc<S, L>)
    requires Ordered(a, d, st, finished) && st.queue != [] && Top(st).arcs != [] && i < |st.queue| - 1
    requires arc in Processed(ArcsOn(a.arcs, d, Descend(a, d, st).queue[i].state), Descend(a, d, st).queue[i].arcs)
    ensures Handled(Descend(a, d, st).queue, finished, i, arc.State(d))
  {
    var nx := Descend(a, d, st);
    assert nx.queue[i] == st.queue[i] && nx.queue[i + 1].state == st.queue[i + 1].state;
    OrderedAt(a, d, st, finished, i, arc);
    HandledKept(st.queue, nx.queue, finished, i, arc.State(d));
  }

  /** The arcs followed from the old top lead to finished states or to the new top. */
  lemma DescendTopHandled<S, L>(a: AutomatonValue<S, L>, d: Direction, st: TraversalState<S, L>, finished: seq<S>, arc: Arc<S, L>)
    requires Ordered(a, d, st, finished) && StackArcs(a, d, st.queue) && st.queue != [] && Top(st).arcs != []
    requires arc in Processed(ArcsOn(a.arcs, d, Descend(a, d, st).queue[|st.queue| - 1].state),
                              Descend(a, d, st).queue[|st.queue| - 1].arcs)
    ensures Handled(Descend(a, d, st).queue, finished, |st.queue| - 1, arc.State(d))
  {
    var n := |st.queue| - 1;
    assert Descend(a, d, st).queue[n] == Top(DropArc(st));
    DropArcStack(a, d, st);
    if arc != Top(st).arcs[0] {
      OrderedAt(a, d, st, finished, n, arc);
    } else {
      assert Descend(a, d, st).queue[n + 1].state == ArcTarget(d, st);
    }
  }

  /** The new top has followed none of its arcs. */
  lemma DescendNewTop<S, L>(a: AutomatonValue<S, L>, d: Direction, st: TraversalState<S, L>)
    requires st.queue != [] && Top(st).arcs != []
    ensures var q := Descend(a, d, st).queue;
      |q| == |st.queue| + 1 && Processed(ArcsOn(a.arcs, d, q[|st.queue|].state), q[|st.queue|].arcs) == []
  {
  }

  lemma DescendOrdered<S, L>(a: AutomatonValue<S, L>, d: Direction, st: TraversalState<S, L>, finished: seq<S>)
    requires Ordered(a, d, st, finished) && StackArcs(a, d, st.queue) && st.queue != [] && Top(st).arcs != []
    ensures Ordered(a, d, Descend(a, d, st), finished)
  {
    var n := |st.queue| - 1;
    var nx := Descend(a, d, st);
    DescendNewTop(a, d, st);
    forall i, arc | 0 <= i < |nx.queue| && arc in Processed(ArcsOn(a.arcs, d, nx.queue[i].state), nx.queue[i].arcs)
      ensures Handled(nx.queue, finished, i, arc.State(d))
    {
      if i < n {
        DescendBelowHandled(a, d, st, finished, i, arc);
      } else if i == n {
        DescendTopHandled(a, d, st, finished, arc);
      } else {
        assert false;
      }
    }
  }

  lemma DescendInv<S, L>(a: AutomatonValue<S, L>, d: Direction, st: TraversalState<S, L>, finished: seq<S>)
    requires Inv(a, d, st, finished) && st.queue != [] && Top(st).visiting && Top(st).arcs != []
    requires st.Status(ArcTarget(d, st)) == Unvisited
    ensures Inv(a, d, Descend(a, d, st), finished)
    ensures MeasureDecreases(a, st, Descend(a, d, st))
  {
    VisitingTop(a, d, st, finished);
    NextArc(a, d, st);
    DescendRoots(a, d, st);
    DescendStack(a, d, st);
    DescendStatusOfStack(a, d, st);
    DescendStatus(a, d, st, finished);
    DescendMeasure(a, d, st);
  }

  lemma DescendMeasure<S, L>(a: AutomatonValue<S, L>, d: Direction, st: TraversalState<S, L>)
    requires st.queue != [] && Top(st).arcs != []
    requires st.Status(ArcTarget(d, st)) == Unvisited && ArcTarget(d, st) in a.states
    ensures MeasureDecreases(a, st, Descend(a, d, st))
  {
    CountDrops(a, st, Descend(a, d, st), ArcTarget(d, st));
  }

  /* The steps that follow an arc to a state already reached. */

  lemma DropArcInv<S, L>(a: AutomatonValue<S, L>, d: Direction, st: TraversalState<S, L>, finished: seq<S>)
    requires Inv(a, d, st, finished) && st.queue != [] && Top(st).visiting && Top(st).arcs != []
    ensures Inv(a, d, DropArc(st), finished)
    ensures MeasureDecreases(a, st, DropArc(st))
  {
    VisitingTop(a, d, st, finished);
    DropArcQueue(a, d, st);
    DropArcMeasure(a, st);
  }

  lemma DropArcQueue<S, L>(a: AutomatonValue<S, L>, d: Direction, st: TraversalState<S, L>)
    requires QueueInv(a, d, st) && st.queue != [] && Top(st).arcs != []
    requires forall i :: 0 <= i < |st.queue| ==> st.queue[i].visiting
    ensures QueueInv(a, d, DropArc(st))
    ensures StackStates(DropArc(st).queue) == StackStates(st.queue)
  {
    var nx := DropArc(st);
    DropArcStack(a, d, st);
    AllVisitingLone(a, d, nx.queue);
    assert StackStatus(nx) by {
      forall i | 0 <= i < |nx.queue| ensures nx.Status(nx.queue[i].state) == Visiting {
        assert StackStates(nx.queue)[i] == StackStates(st.queue)[i];
      }
    }
  }

  lemma DropArcMeasure<S, L>(a: AutomatonValue<S, L>, st: TraversalState<S, L>)
    requires st.queue != [] && Top(st).arcs != []
    ensures MeasureDecreases(a, st, DropArc(st))
  {
    CountSame(a, st, DropArc(st));
    QueueWeightReplaceTop(st.queue, Top(st).(arcs := Top(st).arcs[1..]));
  }

  lemma DropArcOrdered<S, L>(a: AutomatonValue<S, L>, d: Direction, st: TraversalState<S, L>, finished: seq<S>)
    requires Ordered(a, d, st, finished) && StackArcs(a, d, st.queue) && st.queue != [] && Top(st).arcs != []
    requires ArcTarget(d, st) in finished
    ensures Ordered(a, d, DropArc(st), finished)
  {
    var n := |st.queue| - 1;
    var nx := DropArc(st);
    DropArcStack(a, d, st);
    forall i, arc | 0 <= i < |nx.queue| && arc in Processed(ArcsOn(a.arcs, d, nx.queue[i].state), nx.queue[i].arcs)
      ensures Handled(nx.queue, finished, i, arc.State(d))
    {
      if i < n {
        assert nx.queue[i] == st.queue[i];
        OrderedAt(a, d, st, finished, i, arc);
        HandledKept(st.queue, nx.queue, finished, i, arc.State(d));
      } else {
        assert nx.queue[i] == Top(DropArc(st));
        if arc != Top(st).arcs[0] {
          OrderedAt(a, d, st, finished, n, arc);
        }
      }
    }
  }

  /** A path closed by an arc from its end back to one of its states holds a cycle. */
  lemma CycleFromPath<S, L>(a: AutomatonValue<S, L>, d: Direction, states: seq<S>, i: nat, next: S)
    requires IsPath(a, d, states) && i < |states| && states[i] == next
    requires Edge(a, d, states[|states| - 1], next)
    ensures IsCycle(a, d, states[i..] + [next])
  {
    PathSuffix(a, d, states, i);
    assert states[i..][|states[i..]| - 1] == states[|states| - 1];
    PathAppend(a, d, states[i..], next);
  }

  /** A back state closes a cycle: the stack from that state up, then the arc back to it. */
  lemma BackStateCycle<S, L>(a: AutomatonValue<S, L>, d: Direction, st: TraversalState<S, L>) returns (c: seq<S>)
    requires a.Valid() && StackArcs(a, d, st.queue) && IsPath(a, d, StackStates(st.queue))
    requires st.queue != [] && Top(st).arcs != [] && ArcTarget(d, st) in StackStates(st.queue)
    ensures IsCycle(a, d, c) && c[0] == ArcTarget(d, st)
  {
    var next := ArcTarget(d, st);
    var states := StackStates(st.queue);
    NextArc(a, d, st);
    var i :| 0 <= i < |states| && states[i] == next;
    assert states[|states| - 1] == Top(st).state;
    CycleFromPath(a, d, states, i, next);
    c := states[i..] + [next];
  }

  /* One step in general. */

  /**
   * How one step changes the visit status: only the reported state's status
   * may change, a new root is unvisited, a visit starts on an unvisited state
   * and finishes on one being visited, a back state is being visited and a
   * forward or cross state has been visited.
   */
  ghost predicate StatusStep<S, L>(st: TraversalState<S, L>, step: Step<S, L>)
  {
    var s := step.report.state;
    && (forall t :: t in st.visitStatus.Keys + step.next.visitStatus.Keys && t != s ==> step.next.Status(t) == st.Status(t))
    && match step.report.event
       case NewRoot => st.queue == [] && st.roots != [] && s == st.roots[0] && st.Status(s) == step.next.Status(s) == Unvisited
       case Visit => st.Status(s) == Unvisited && step.next.Status(s) == Visiting
       case FinishVisit => st.Status(s) == Visiting && step.next.Status(s) == Visited
       case BackState => st.Status(s) == step.next.Status(s) == Visiting
       case ForwardOrCrossState => st.Status(s) == step.next.Status(s) == Visited
  }

  lemma ChopEvents<S, L>(a: AutomatonValue<S, L>, d: Direction, st: TraversalState<S, L>, finished: seq<S>)
    requires Inv(a, d, st, finished) && !st.Empty()
    ensures StatusStep(st, Chop(a, d, st))
  {
    if st.queue == [] {
      assert RootsInv(a, st);
      StatusOfSame(st, Step(StartRoot(a, d, st), Report(st.roots[0], NewRoot)));
    } else if !Top(st).visiting {
      NotVisitingTop(a, d, st, finished);
      StatusOfUpdate(st, Step(MarkVisiting(st), Report(Top(st).state, Visit)), Visiting);
    } else if Top(st).arcs == [] {
      VisitingTop(a, d, st, finished);
      StatusOfUpdate(st, Step(FinishTop(st), Report(Top(st).state, FinishVisit)), Visited);
    } else {
      var next := ArcTarget(d, st);
      match st.Status(next)
      case Unvisited => StatusOfUpdate(st, Step(Descend(a, d, st), Report(next, Visit)), Visiting);
      case Visiting => StatusOfSame(st, Step(DropArc(st), Report(next, BackState)));
      case Visited => StatusOfSame(st, Step(DropArc(st), Report(next, ForwardOrCrossState)));
    }
  }

  lemma StatusOfSame<S, L>(st: TraversalState<S, L>, step: Step<S, L>)
    requires step.next.visitStatus == st.visitStatus
    ensures forall t :: t in st.visitStatus.Keys + step.next.visitStatus.Keys && t != step.report.state ==>
      step.next.Status(t) == st.Status(t)
    ensures step.next.Status(step.report.state) == st.Status(step.report.state)
  {
  }

  lemma StatusOfUpdate<S, L>(st: TraversalState<S, L>, step: Step<S, L>, v: VisitStatus)
    requires step.next.visitStatus == st.visitStatus[step.report.state := v]
    ensures forall t :: t in st.visitStatus.Keys + step.next.visitStatus.Keys && t != step.report.state ==>
      step.next.Status(t) == st.Status(t)
    ensures step.next.Status(step.report.state) == v
  {
  }

  /**
   * One step keeps the invariants (with the finished state appended on a
   * finished visit) and lowers the measure.
   */
  lemma ChopStep<S, L>(a: AutomatonValue<S, L>, d: Direction, st: TraversalState<S, L>, finished: seq<S>)
    requires Inv(a, d, st, finished) && !st.Empty()
    ensures var step := Chop(a, d, st);
      && Inv(a, d, step.next, Finished(finished, step.report))
      && MeasureDecreases(a, st, step.next)
  {
    if st.queue == [] {
      ChopNewRoot(a, d, st, finished);
    } else if !Top(st).visiting {
      ChopVisitTop(a, d, st, finished);
    } else if Top(st).arcs == [] {
      ChopFinishTop(a, d, st, finished);
    } else if st.Status(ArcTarget(d, st)) == Unvisited {
      ChopDescend(a, d, st, finished);
    } else {
      ChopDropArc(a, d, st, finished);
    }
  }

  lemma ChopNewRoot<S, L>(a: AutomatonValue<S, L>, d: Direction, st: TraversalState<S, L>, finished: seq<S>)
    requires Inv(a, d, st, finished) && st.queue == [] && st.roots != []
    ensures var step := Chop(a, d, st);
      Inv(a, d, step.next, Finished(finished, step.report)) && MeasureDecreases(a, st, step.next)
  {
    StartRootInv(a, d, st, finished);
    assert Chop(a, d, st) == Step(StartRoot(a, d, st), Report(st.roots[0], NewRoot));
  }

  lemma ChopVisitTop<S, L>(a: AutomatonValue<S, L>, d: Direction, st: TraversalState<S, L>, finished: seq<S>)
    requires Inv(a, d, st, finished) && st.queue != [] && !Top(st).visiting
    ensures var step := Chop(a, d, st);
      Inv(a, d, step.next, Finished(finished, step.report)) && MeasureDecreases(a, st, step.next)
  {
    MarkVisitingInv(a, d, st, finished);
    assert Chop(a, d, st) == Step(MarkVisiting(st), Report(Top(st).state, Visit));
  }

  lemma ChopFinishTop<S, L>(a: AutomatonValue<S, L>, d: Direction, st: TraversalState<S, L>, finished: seq<S>)
    requires Inv(a, d, st, finished) && st.queue != [] && Top(st).visiting && Top(st).arcs == []
    ensures var step := Chop(a, d, st);
      Inv(a, d, step.next, Finished(finished, step.report)) && MeasureDecreases(a, st, step.next)
  {
    FinishTopInv(a, d, st, finished);
    assert Chop(a, d, st) == Step(FinishTop(st), Report(Top(st).state, FinishVisit));
  }

  lemma ChopDescend<S, L>(a: AutomatonValue<S, L>, d: Direction, st: TraversalState<S, L>, finished: seq<S>)
    requires Inv(a, d, st, finished) && st.queue != [] && Top(st).visiting && Top(st).arcs != []
    requires st.Status(ArcTarget(d, st)) == Unvisited
    ensures var step := Chop(a, d, st);
      Inv(a, d, step.next, Finished(finished, step.report)) && MeasureDecreases(a, st, step.next)
  {
    DescendInv(a, d, st, finished);
    assert Chop(a, d, st) == Step(Descend(a, d, st), Report(ArcTarget(d, st), Visit));
  }

  lemma ChopDropArc<S, L>(a: AutomatonValue<S, L>, d: Direction, st: TraversalState<S, L>, finished: seq<S>)
    requires Inv(a, d, st, finished) && st.queue != [] && Top(st).visiting && Top(st).arcs != []
    requires st.Status(ArcTarget(d, st)) != Unvisited
    ensures var step := Chop(a, d, st);
      Inv(a, d, step.next, Finished(finished, step.report)) && MeasureDecreases(a, st, step.next)
  {
    DropArcInv(a, d, st, finished);
    assert Chop(a, d, st).next == DropArc(st) && Chop(a, d, st).report.event != FinishVisit;
  }

  /** A step that reports no back state keeps the order of finishing. */
  lemma ChopOrdered<S, L>(a: AutomatonValue<S, L>, d: Direction, st: TraversalState<S, L>, finished: seq<S>)
    requires Inv(a, d, st, finished) && Ordered(a, d, st, finished) && !st.Empty()
    requires Chop(a, d, st).report.event != BackState
    ensures Ordered(a, d, Chop(a, d, st).next, Finished(finished, Chop(a, d, st).report))
  {
    if st.queue == [] {
      ChopNewRootOrdered(a, d, st, finished);
    } else if !Top(st).visiting {
      ChopVisitTopOrdered(a, d, st, finished);
    } else if Top(st).arcs == [] {
      ChopFinishTopOrdered(a, d, st, finished);
    } else if st.Status(ArcTarget(d, st)) == Unvisited {
      ChopDescendOrdered(a, d, st, finished);
    } else {
      ChopDropArcOrdered(a, d, st, finished);
    }
  }

  lemma ChopNewRootOrdered<S, L>(a: AutomatonValue<S, L>, d: Direction, st: TraversalState<S, L>, finished: seq<S>)
    requires Inv(a, d, st, finished) && Ordered(a, d, st, finished) && st.queue == [] && st.roots != []
    ensures Ordered(a, d, Chop(a, d, st).next, Finished(finished, Chop(a, d, st).report))
  {
    StartRootOrdered(a, d, st, finished);
    assert Chop(a, d, st) == Step(StartRoot(a, d, st), Report(st.roots[0], NewRoot));
  }

  lemma ChopVisitTopOrdered<S, L>(a: AutomatonValue<S, L>, d: Direction, st: TraversalState<S, L>, finished: seq<S>)
    requires Inv(a, d, st, finished) && Ordered(a, d, st, finished) && st.queue != [] && !Top(st).visiting
    ensures Ordered(a, d, Chop(a, d, st).next, Finished(finished, Chop(a, d, st).report))
  {
    NotVisitingTop(a, d, st, finished);
    MarkVisitingOrdered(a, d, st, finished);
    assert Chop(a, d, st) == Step(MarkVisiting(st), Report(Top(st).state, Visit));
  }

  lemma ChopFinishTopOrdered<S, L>(a: AutomatonValue<S, L>, d: Direction, st: TraversalState<S, L>, finished: seq<S>)
    requires Inv(a, d, st, finished) && Ordered(a, d, st, finished) && st.queue != [] && Top(st).visiting && Top(st).arcs == []
    ensures Ordered(a, d, Chop(a, d, st).next, Finished(finished, Chop(a, d, st).report))
  {
    FinishTopOrdered(a, d, st, finished);
    assert Chop(a, d, st) == Step(FinishTop(st), Report(Top(st).state, FinishVisit));
  }

  lemma ChopDescendOrdered<S, L>(a: AutomatonValue<S, L>, d: Direction, st: TraversalState<S, L>, finished: seq<S>)
    requires Inv(a, d, st, finished) && Ordered(a, d, st, finished) && st.queue != [] && Top(st).visiting && Top(st).arcs != []
    requires st.Status(ArcTarget(d, st)) == Unvisited
    ensures Ordered(a, d, Chop(a, d, st).next, Finished(finished, Chop(a, d, st).report))
  {
    DescendOrdered(a, d, st, finished);
    assert Chop(a, d, st) == Step(Descend(a, d, st), Report(ArcTarget(d, st), Visit));
  }

  lemma ChopDropArcOrdered<S, L>(a: AutomatonValue<S, L>, d: Direction, st: TraversalState<S, L>, finished: seq<S>)
    requires Inv(a, d, st, finished) && Ordered(a, d, st, finished) && st.queue != [] && Top(st).visiting && Top(st).arcs != []
    requires st.Status(ArcTarget(d, st)) == Visited
    ensures Ordered(a, d, Chop(a, d, st).next, Finished(finished, Chop(a, d, st).report))
  {
    assert ArcTarget(d, st) in finished;
    DropArcOrdered(a, d, st, finished);
    assert Chop(a, d, st) == Step(DropArc(st), Report(ArcTarget(d, st), ForwardOrCrossState));
  }

  /** A step reports a back state only when a cycle passes through that state. */
  lemma ChopBackState<S, L>(a: AutomatonValue<S, L>, d: Direction, st: TraversalState<S, L>, finished: seq<S>) returns (c: seq<S>)
    requires Inv(a, d, st, finished) && !st.Empty()
    requires Chop(a, d, st).report.event == BackState
    ensures IsCycle(a, d, c) && c[0] == Chop(a, d, st).report.state
  {
    assert st.queue != [] && Top(st).visiting && Top(st).arcs != [];
    assert st.Status(ArcTarget(d, st)) == Visiting;
    assert ArcTarget(d, st) in StackStates(st.queue);
    c := BackStateCycle(a, d, st);
  }

  /**
   * When the traversal is over, every state of the automaton has been
   * finished, exactly once.
   */
  lemma TraversalComplete<S, L>(a: AutomatonValue<S, L>, d: Direction, st: TraversalState<S, L>, finished: seq<S>)
    requires Inv(a, d, st, finished) && st.Empty()
    ensures Distinct(finished)
    ensures forall s :: s in finished <==> s in a.states
    ensures |finished| == |a.states|
  {
    forall s | s in a.states ensures s in finished {
      var i :| 0 <= i < |a.states| && a.states[i] == s;
      assert st.Status(a.states[i]) != Unvisited;
      assert StackStates(st.queue) == [];
    }
    DistinctSameLength(finished, a.states);
  }

  /** Two duplicate-free sequences with the same elements have the same length. */
  lemma DistinctSameLength<T>(x: seq<T>, y: seq<T>)
    requires Distinct(x) && Distinct(y) && forall t :: t in x <==> t in y
    ensures |x| == |y|
  {
    DistinctCardinality(x);
    DistinctCardinality(y);
    assert (set t | t in x) == (set t | t in y);
  }

  lemma {:induction false} DistinctCardinality<T>(x: seq<T>)
    requires Distinct(x)
    ensures |set t | t in x| == |x|
  {
    if x != [] {
      var rest := x[1..];
      DistinctCardinality(rest);
      assert (set t | t in x) == {x[0]} + (set t | t in rest);
      assert x[0] !in rest by {
        forall i | 0 <= i < |rest| ensures rest[i] != x[0] {
          assert rest[i] == x[i + 1];
        }
      }
    }
  }

  /** Drop the roots that have been seen, so that they start with an unvisited state or are empty. */
  method SkipVisitedRoots<S(==)>(roots: seq<S>, visitStatus: map<S, VisitStatus>) returns (rest: seq<S>)
    ensures rest == SkipVisited(roots, visitStatus)
  {
    rest := roots;
    while rest != [] && StatusIn(visitStatus, rest[0]) != Unvisited
      invariant SkipVisited(rest, visitStatus) == SkipVisited(roots, visitStatus)
    {
      rest := rest[1..];
    }
  }

  /**
   * The traversal range: an automaton, the direction to follow, and the
   * roots, visit status and stack that chop_in_place updates.
   */
  class DepthFirstTraversal<S(==), L(==)> {
    const automaton: AutomatonValue<S, L>
    const direction: Direction
    var roots: seq<S>
    var visitStatus: map<S, VisitStatus>
    var queue: seq<Position<S, L>>

    function State(): TraversalState<S, L>
      reads this
    {
      TraversalState(roots, visitStatus, queue)
    }

    constructor (automaton: AutomatonValue<S, L>, direction: Direction)
      ensures this.automaton == automaton && this.direction == direction
      ensures State() == Start(automaton)
    {
      this.automaton := automaton;
      this.direction := direction;
      roots := automaton.states;
      visitStatus := map[];
      queue := [];
    }

    function Empty(): (r: bool)
      reads this
      ensures r <==> State().Empty()
    {
      queue == [] && roots == []
    }

    /** Advance to the next event and return it. */
    method ChopInPlace() returns (r: Report<S>)
      requires !State().Empty()
      modifies this
      ensures Step(State(), r) == Chop(automaton, direction, old(State()))
    {
      ghost var st := State();
      if queue == [] {
        var root := roots[0];
        roots := roots[1..];
        queue := [Position(root, false, ArcsOn(automaton.arcs, direction, root))];
        r := Report(root, NewRoot);
        assert Step(State(), r) == Step(StartRoot(automaton, direction, st), Report(st.roots[0], NewRoot));
        return;
      }
      var n := |queue| - 1;
      var position := queue[n];
      if !position.visiting {
        queue := queue[n := position.(visiting := true)];
        visitStatus := visitStatus[position.state := Visiting];
        r := Report(position.state, Visit);
        assert Step(State(), r) == Step(MarkVisiting(st), Report(Top(st).state, Visit));
        return;
      }
      if position.arcs == [] {
        var state := position.state;
        visitStatus := visitStatus[state := Visited];
        queue := queue[..n];
        if queue == [] {
          roots := SkipVisitedRoots(roots, visitStatus);
        }
        r := Report(state, FinishVisit);
        assert Step(State(), r) == Step(FinishTop(st), Report(Top(st).state, FinishVisit));
        return;
      }
      assert position == Top(st) && position.visiting && position.arcs != [];
      var arc := position.arcs[0];
      queue := queue[n := position.(arcs := position.arcs[1..])];
      var next := arc.State(direction);
      var status := StatusIn(visitStatus, next);
      if status == Unvisited {
        queue := queue + [Position(next, false, ArcsOn(automaton.arcs, direction, next))];
        // Start again from the top of the stack, which is not yet being visited.
        var m := |queue| - 1;
        queue := queue[m := queue[m].(visiting := true)];
        visitStatus := visitStatus[next := Visiting];
        r := Report(next, Visit);
        assert State() == Descend(automaton, direction, st);
      } else if status == Visiting {
        r := Report(next, BackState);
        assert State() == DropArc(st);
      } else {
        r := Report(next, ForwardOrCrossState);
        assert State() == DropArc(st);
      }
    }
  }
}
