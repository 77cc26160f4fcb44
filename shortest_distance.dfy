// Shortest distance over an acyclic automaton
// (include/flipsta/shortest_distance.hpp): the states are emitted in
// topological order; emitting a state relaxes every arc on it, adding
// times(direction, distance, label) to the distance of the arc's other end, and
// then forgets the state's own distance.
//
// Labels come from a semiring given by its zero (the automaton's), plus and
// times.  Plus is not assumed commutative, so the distance of a state is stated
// as a left-to-right sum in the order the contributions arrive.
module ShortestDistance {
  import opened Wrappers
  import opened Core
  import opened ExplicitAutomaton
  import opened Maps
  import opened Traverse
  import opened TopologicalOrder

  /** start + cs[0] + cs[1] + ... + cs[|cs| - 1], summed from the left. */
  function SumFrom<L>(plus: (L, L) -> L, start: L, cs: seq<L>): L
  {
    if cs == [] then start else plus(SumFrom(plus, start, cs[..|cs| - 1]), cs[|cs| - 1])
  }

  lemma {:induction false} SumFromAppend<L>(plus: (L, L) -> L, start: L, cs: seq<L>, ds: seq<L>)
    ensures SumFrom(plus, SumFrom(plus, start, cs), ds) == SumFrom(plus, start, cs + ds)
  {
    if ds != [] {
      var n := |ds| - 1;
      SumFromAppend(plus, start, cs, ds[..n]);
      assert (cs + ds)[..|cs + ds| - 1] == cs + ds[..n];
    } else {
      assert cs + ds == cs;
    }
  }

  /** A sum of zeros starting from zero is zero when zero + zero is zero. */
  lemma {:induction false} SumOfZeros<L>(plus: (L, L) -> L, zero: L, cs: seq<L>)
    requires plus(zero, zero) == zero
    requires forall i :: 0 <= i < |cs| ==> cs[i] == zero
    ensures SumFrom(plus, zero, cs) == zero
  {
    if cs != [] {
      SumOfZeros(plus, zero, cs[..|cs| - 1]);
    }
  }

  /**
   * What the arcs of `arcs`, leaving a state at the given distance, add to the
   * distance of t: one product per arc whose end in direction d is t, in order.
   */
  function ArcContributions<S(==), L>(arcs: seq<Arc<S, L>>, d: Direction, times: (L, L) -> L, distance: L, t: S): (cs: seq<L>)
    ensures |cs| <= |arcs|
  {
    if arcs == [] then []
    else
      (if arcs[0].State(d) == t then [Times(d, times, distance, arcs[0].arcLabel)] else []) +
      ArcContributions(arcs[1..], d, times, distance, t)
  }

  /** Relaxing the arcs one by one: the distance of each arc's end grows by distance times label. */
  function Relaxed<S(==), L>(m: map<S, L>, zero: L, plus: (L, L) -> L, times: (L, L) -> L, d: Direction,
    arcs: seq<Arc<S, L>>, distance: L): map<S, L>
    decreases |arcs|
  {
    if arcs == [] then m
    else
      var next := arcs[0].State(d);
      var m' := m[next := plus(Lookup(m, next, zero), Times(d, times, distance, arcs[0].arcLabel))];
      Relaxed(m', zero, plus, times, d, arcs[1..], distance)
  }

  /** After relaxing, the distance of every state is its old distance plus its contributions, in arc order. */
  lemma {:induction false} RelaxedSums<S, L>(m: map<S, L>, zero: L, plus: (L, L) -> L, times: (L, L) -> L,
    d: Direction, arcs: seq<Arc<S, L>>, distance: L, t: S)
    ensures Lookup(Relaxed(m, zero, plus, times, d, arcs, distance), t, zero) ==
      SumFrom(plus, Lookup(m, t, zero), ArcContributions(arcs, d, times, distance, t))
    decreases |arcs|
  {
    if arcs != [] {
      var next := arcs[0].State(d);
      var c := Times(d, times, distance, arcs[0].arcLabel);
      var m' := m[next := plus(Lookup(m, next, zero), c)];
      var head := if next == t then [c] else [];
      RelaxedSums(m', zero, plus, times, d, arcs[1..], distance, t);
      assert Lookup(m', t, zero) == SumFrom(plus, Lookup(m, t, zero), head) by {
        if next == t {
          assert [c][..0] == [];
        }
      }
      SumFromAppend(plus, Lookup(m, t, zero), head, ArcContributions(arcs[1..], d, times, distance, t));
    }
  }

  /** The inner loop of chop_in_place: relax every arc on the emitted state. */
  method RelaxArcs<S(==), L>(m: map<S, L>, zero: L, plus: (L, L) -> L, times: (L, L) -> L, d: Direction,
    arcs: seq<Arc<S, L>>, distance: L) returns (r: map<S, L>)
    ensures r == Relaxed(m, zero, plus, times, d, arcs, distance)
  {
    r := m;
    var i := 0;
    while i < |arcs|
      invariant 0 <= i <= |arcs|
      invariant Relaxed(r, zero, plus, times, d, arcs[i..], distance) == Relaxed(m, zero, plus, times, d, arcs, distance)
    {
      assert arcs[i..][1..] == arcs[i + 1..];
      var next := arcs[i].State(d);
      r := r[next := plus(Lookup(r, next, zero), Times(d, times, distance, arcs[i].arcLabel))];
      i := i + 1;
    }
  }

  /**
   * Everything the states of order[..|dists|], at distances dists, contribute
   * to t: state by state in order, and for each state its arcs in arcsOn order.
   */
  function Incoming<S(==), L>(a: AutomatonValue<S, L>, d: Direction, times: (L, L) -> L, order: seq<S>, dists: seq<L>, t: S): seq<L>
    requires |dists| <= |order|
  {
    if dists == [] then []
    else
      var k := |dists| - 1;
      Incoming(a, d, times, order, dists[..k], t) + ArcContributions(ArcsOn(a.arcs, d, order[k]), d, times, dists[k], t)
  }

  /**
   * The reference definition of the distances of order[..k]: the distance of
   * order[i] is its initial label (zero if it has none) plus everything the
   * earlier states contribute to it.  The range computes the same values by
   * pushing contributions forward instead of pulling them.
   */
  function PulledDistances<S(==), L>(a: AutomatonValue<S, L>, d: Direction, plus: (L, L) -> L, times: (L, L) -> L,
    order: seq<S>, initial: map<S, L>, k: nat): (r: seq<L>)
    requires k <= |order|
    ensures |r| == k
  {
    if k == 0 then []
    else
      var ds := PulledDistances(a, d, plus, times, order, initial, k - 1);
      ds + [SumFrom(plus, Lookup(initial, order[k - 1], a.zero), Incoming(a, d, times, order, ds, order[k - 1]))]
  }

  /** In a topological order every arc into order[k] comes from one of order[..k]: no contribution is missed. */
  lemma IncomingArcsComeFirst<S, L>(a: AutomatonValue<S, L>, d: Direction, order: seq<S>, k: nat, arc: Arc<S, L>)
    requires a.Valid() && IsTopologicalOrder(a, d, order) && k < |order|
    requires arc in a.arcs && arc.State(d) == order[k]
    ensures arc.State(Opposite(d)) in order[..k]
  {
    var src := arc.State(Opposite(d));
    assert src in a.states;
    var j := IndexOf(a.states, src);
    var i := IndexOf(order, a.states[j]);
    assert order[i] == src;
    assert order[..k][i] == src;
  }

  /**
   * A set of states that no initial label and no arc from outside reaches gets
   * distance zero, when zero is an identity of plus on itself and annihilates
   * in products: unreachable states are emitted as zero.
   */
  lemma {:induction false} UnreachableIsZero<S, L>(a: AutomatonValue<S, L>, d: Direction, plus: (L, L) -> L, times: (L, L) -> L,
    order: seq<S>, initial: map<S, L>, k: nat, unreached: set<S>)
    requires k <= |order|
    requires plus(a.zero, a.zero) == a.zero
    requires forall l :: times(a.zero, l) == a.zero && times(l, a.zero) == a.zero
    requires forall s :: s in unreached ==> Lookup(initial, s, a.zero) == a.zero
    requires forall arc :: arc in a.arcs && arc.State(d) in unreached ==> arc.State(Opposite(d)) in unreached
    ensures forall i :: 0 <= i < k && order[i] in unreached ==>
      PulledDistances(a, d, plus, times, order, initial, k)[i] == a.zero
  {
    if k > 0 {
      UnreachableIsZero(a, d, plus, times, order, initial, k - 1, unreached);
      var ds := PulledDistances(a, d, plus, times, order, initial, k - 1);
      var t := order[k - 1];
      if t in unreached {
        IncomingZero(a, d, times, order, ds, t, unreached);
        SumOfZeros(plus, a.zero, Incoming(a, d, times, order, ds, t));
      }
    }
  }

  lemma {:induction false} IncomingZero<S, L>(a: AutomatonValue<S, L>, d: Direction, times: (L, L) -> L,
    order: seq<S>, dists: seq<L>, t: S, unreached: set<S>)
    requires |dists| <= |order| && t in unreached
    requires forall l :: times(a.zero, l) == a.zero && times(l, a.zero) == a.zero
    requires forall arc :: arc in a.arcs && arc.State(d) in unreached ==> arc.State(Opposite(d)) in unreached
    requires forall i :: 0 <= i < |dists| && order[i] in unreached ==> dists[i] == a.zero
    ensures forall i :: 0 <= i < |Incoming(a, d, times, order, dists, t)| ==> Incoming(a, d, times, order, dists, t)[i] == a.zero
  {
    if dists != [] {
      var k := |dists| - 1;
      IncomingZero(a, d, times, order, dists[..k], t, unreached);
      var arcs := ArcsOn(a.arcs, d, order[k]);
      ArcsOnMembers(a.arcs, d, order[k]);
      ContributionsZero(arcs, d, times, dists[k], t, a.zero, order[k] in unreached);
    }
  }

  lemma {:induction false} ContributionsZero<S, L>(arcs: seq<Arc<S, L>>, d: Direction, times: (L, L) -> L, distance: L, t: S, zero: L, fromUnreached: bool)
    requires forall l :: times(zero, l) == zero && times(l, zero) == zero
    requires fromUnreached ==> distance == zero
    requires !fromUnreached ==> forall i :: 0 <= i < |arcs| ==> arcs[i].State(d) != t
    ensures forall i :: 0 <= i < |ArcContributions(arcs, d, times, distance, t)| ==> ArcContributions(arcs, d, times, distance, t)[i] == zero
  {
    if arcs != [] {
      ContributionsZero(arcs[1..], d, times, distance, t, zero, fromUnreached);
    }
  }

  /**
   * The range of (state, distance) pairs.  `order` is what remains of the
   * topological order; `distances` holds the distances computed so far of the
   * states not yet emitted (absent means zero).
   */
  class ShortestDistanceAcyclicRange<S(==), L(==)> {
    const automaton: AutomatonValue<S, L>
    const direction: Direction
    const plus: (L, L) -> L
    const times: (L, L) -> L
    var order: seq<S>
    var distances: map<S, L>
    /** The whole topological order, and the initial distances, for the specification. */
    ghost const fullOrder: seq<S>
    ghost const initial: map<S, L>

    /** The number of states emitted so far. */
    ghost function Emitted(): nat
      reads this
      requires |order| <= |fullOrder|
    {
      |fullOrder| - |order|
    }

    /**
     * The relaxation invariant: every state not yet emitted holds its initial
     * label plus what the emitted states contribute to it.
     */
    ghost predicate Valid()
      reads this
    {
      && automaton.Valid()
      && IsTopologicalOrder(automaton, direction, fullOrder)
      && |order| <= |fullOrder|
      && order == fullOrder[Emitted()..]
      && (forall i {:trigger Lookup(distances, fullOrder[i], automaton.zero)} :: Emitted() <= i < |fullOrder| ==>
            Lookup(distances, fullOrder[i], automaton.zero) ==
            SumFrom(plus, Lookup(initial, fullOrder[i], automaton.zero),
              Incoming(automaton, direction, times, fullOrder,
                PulledDistances(automaton, direction, plus, times, fullOrder, initial, Emitted()), fullOrder[i])))
    }

    /** Construction from a topological order and the checked initial distances. */
    constructor (automaton: AutomatonValue<S, L>, direction: Direction, plus: (L, L) -> L, times: (L, L) -> L,
      order: seq<S>, initial: map<S, L>)
      requires automaton.Valid() && IsTopologicalOrder(automaton, direction, order)
      ensures Valid()
      ensures this.automaton == automaton && this.direction == direction && this.plus == plus && this.times == times
      ensures this.order == order && fullOrder == order && distances == initial && this.initial == initial
    {
      this.automaton := automaton;
      this.direction := direction;
      this.plus := plus;
      this.times := times;
      this.order := order;
      this.distances := initial;
      this.fullOrder := order;
      this.initial := initial;
    }

    function Empty(): (r: bool)
      reads this
      ensures r <==> order == []
    {
      |order| == 0
    }

    /**
     * Emit the next state in topological order with its distance, forget that
     * distance, and relax every arc on the state.
     */
    method ChopInPlace() returns (state: S, distance: L)
      requires Valid() && order != []
      modifies this
      ensures Valid()
      ensures state == old(order)[0] && order == old(order)[1..]
      ensures distance == PulledDistances(automaton, direction, plus, times, fullOrder, initial, old(Emitted()) + 1)[old(Emitted())]
      ensures distances == Relaxed(old(distances) - {state}, automaton.zero, plus, times, direction,
        ArcsOn(automaton.arcs, direction, state), distance)
    {
      ghost var k := Emitted();
      ghost var before := distances;
      state := order[0];
      order := order[1..];
      distance := Lookup(distances, state, automaton.zero);
      distances := distances - {state};
      distances := RelaxArcs(distances, automaton.zero, plus, times, direction, ArcsOn(automaton.arcs, direction, state), distance);
      ChopKeepsDistances(automaton, direction, plus, times, fullOrder, initial, k, before);
    }
  }

  /** One step of the range preserves the relaxation invariant and emits the reference distance. */
  lemma ChopKeepsDistances<S, L>(a: AutomatonValue<S, L>, d: Direction, plus: (L, L) -> L, times: (L, L) -> L,
    order: seq<S>, initial: map<S, L>, k: nat, distances: map<S, L>)
    requires k < |order| && Distinct(order)
    requires forall i :: k <= i < |order| ==>
      Lookup(distances, order[i], a.zero) ==
      SumFrom(plus, Lookup(initial, order[i], a.zero),
        Incoming(a, d, times, order, PulledDistances(a, d, plus, times, order, initial, k), order[i]))
    ensures var s := order[k];
      var x := Lookup(distances, s, a.zero);
      && x == PulledDistances(a, d, plus, times, order, initial, k + 1)[k]
      && forall i :: k + 1 <= i < |order| ==>
        Lookup(Relaxed(distances - {s}, a.zero, plus, times, d, ArcsOn(a.arcs, d, s), x), order[i], a.zero) ==
        SumFrom(plus, Lookup(initial, order[i], a.zero),
          Incoming(a, d, times, order, PulledDistances(a, d, plus, times, order, initial, k + 1), order[i]))
  {
    var s := order[k];
    var x := Lookup(distances, s, a.zero);
    var ds := PulledDistances(a, d, plus, times, order, initial, k);
    var ds' := PulledDistances(a, d, plus, times, order, initial, k + 1);
    assert ds'[..k] == ds;
    assert ds'[k] == x;
    forall i | k + 1 <= i < |order|
      ensures Lookup(Relaxed(distances - {s}, a.zero, plus, times, d, ArcsOn(a.arcs, d, s), x), order[i], a.zero) ==
        SumFrom(plus, Lookup(initial, order[i], a.zero), Incoming(a, d, times, order, ds', order[i]))
    {
      var t := order[i];
      assert t != s;
      var arcs := ArcsOn(a.arcs, d, s);
      RelaxedSums(distances - {s}, a.zero, plus, times, d, arcs, x, t);
      assert Lookup(distances - {s}, t, a.zero) == Lookup(distances, t, a.zero);
      SumFromAppend(plus, Lookup(initial, t, a.zero), Incoming(a, d, times, order, ds, t),
        ArcContributions(arcs, d, times, x, t));
    }
  }

  /**
   * Check the initial (state, distance) pairs in order, failing on the first
   * state the automaton does not have; repeated states keep their last distance.
   */
  method CheckedInitialDistances<S(==), L(==)>(a: AutomatonValue<S, L>, initial: seq<(S, L)>)
    returns (r: Result<map<S, L>, Error<S>>)
    ensures r.Ok? <==> forall i :: 0 <= i < |initial| ==> a.HasState(initial[i].0)
    ensures r.Ok? ==> r.value == FromPairs(initial)
    ensures r.Err? ==> (r.error.StateNotFound? &&
      exists i :: 0 <= i < |initial| && initial[i].0 == r.error.state && !a.HasState(r.error.state) &&
        forall j :: 0 <= j < i ==> a.HasState(initial[j].0))
  {
    var m := map[];
    var i := 0;
    while i < |initial|
      invariant 0 <= i <= |initial|
      invariant m == FromPairs(initial[..i])
      invariant forall j :: 0 <= j < i ==> a.HasState(initial[j].0)
    {
      if !a.HasState(initial[i].0) {
        return Err(StateNotFound(initial[i].0));
      }
      assert initial[..i + 1][..i] == initial[..i];
      m := m[initial[i].0 := initial[i].1];
      i := i + 1;
    }
    assert initial[..i] == initial;
    r := Ok(m);
  }

  /**
   * The constructor of the range: the topological order first, so that a cycle
   * is reported before anything else, then the initial distances.
   */
  method NewShortestDistanceAcyclicRange<S(==), L(==)>(a: AutomatonValue<S, L>, d: Direction,
    plus: (L, L) -> L, times: (L, L) -> L, initial: seq<(S, L)>)
    returns (r: Result<ShortestDistanceAcyclicRange<S, L>, Error<S>>)
    requires a.Valid()
    ensures r.Ok? ==> (fresh(r.value) && r.value.Valid() && r.value.automaton == a && r.value.direction == d &&
      r.value.plus == plus && r.value.times == times && r.value.order == r.value.fullOrder &&
      r.value.initial == FromPairs(initial) && r.value.distances == FromPairs(initial))
    ensures r.Ok? ==> IsTraversalOrder(a, d, r.value.fullOrder)
    ensures r.Ok? ==> forall i :: 0 <= i < |initial| ==> a.HasState(initial[i].0)
    ensures r.Err? && r.error.AutomatonNotAcyclic? ==> exists c :: IsCycle(a, d, c) && c[0] == r.error.state
    ensures r.Err? ==> r.error.AutomatonNotAcyclic? || r.error.StateNotFound?
    ensures r.Err? && r.error.StateNotFound? ==>
      !a.HasState(r.error.state) &&
      exists i :: 0 <= i < |initial| && initial[i].0 == r.error.state && forall j :: 0 <= j < i ==> a.HasState(initial[j].0)
    ensures (exists c :: IsCycle(a, d, c)) ==> r.Err? && r.error.AutomatonNotAcyclic?
    ensures (forall c :: !IsCycle(a, d, c)) && (forall i :: 0 <= i < |initial| ==> a.HasState(initial[i].0)) ==> r.Ok?
  {
    var order := TopologicalOrderAutomatic(a, d);
    if order.Err? {
      return Err(order.error);
    }
    var distances := CheckedInitialDistances(a, initial);
    if distances.Err? {
      TopologicalOrderAcyclic(a, d, order.value);
      return Err(distances.error);
    }
    var range := new ShortestDistanceAcyclicRange(a, d, plus, times, order.value, distances.value);
    r := Ok(range);
    TopologicalOrderAcyclic(a, d, order.value);
  }

  /**
   * The pairs a consumer of the range receives: every state once, in a
   * topological order, each with its reference distance.
   */
  ghost predicate IsShortestDistances<S, L>(a: AutomatonValue<S, L>, d: Direction, plus: (L, L) -> L, times: (L, L) -> L,
    initial: map<S, L>, result: seq<(S, L)>)
  {
    && IsTopologicalOrder(a, d, Keys(result))
    && forall i :: 0 <= i < |result| ==>
         result[i].1 == PulledDistances(a, d, plus, times, Keys(result), initial, |result|)[i]
  }

  /** Construct the range and take every pair from it (shortestDistanceAcyclicCompressed). */
  method ShortestDistanceAcyclicCompressed<S(==), L(==)>(a: AutomatonValue<S, L>, d: Direction,
    plus: (L, L) -> L, times: (L, L) -> L, initial: seq<(S, L)>)
    returns (r: Result<seq<(S, L)>, Error<S>>)
    requires a.Valid()
    ensures r.Ok? ==> IsShortestDistances(a, d, plus, times, FromPairs(initial), r.value)
    ensures r.Ok? ==> IsTraversalOrder(a, d, Keys(r.value))
    ensures r.Err? && r.error.AutomatonNotAcyclic? ==> exists c :: IsCycle(a, d, c) && c[0] == r.error.state
    ensures r.Err? ==> r.error.AutomatonNotAcyclic? || r.error.StateNotFound?
    ensures r.Err? && r.error.StateNotFound? ==>
      !a.HasState(r.error.state) &&
      exists i :: 0 <= i < |initial| && initial[i].0 == r.error.state && forall j :: 0 <= j < i ==> a.HasState(initial[j].0)
    ensures (exists c :: IsCycle(a, d, c)) ==> r.Err? && r.error.AutomatonNotAcyclic?
    ensures (forall c :: !IsCycle(a, d, c)) && (forall i :: 0 <= i < |initial| ==> a.HasState(initial[i].0)) ==> r.Ok?
  {
    var made := NewShortestDistanceAcyclicRange(a, d, plus, times, initial);
    if made.Err? {
      return Err(made.error);
    }
    var result := Drain(made.value);
    r := Ok(result);
    TopologicalOrderAcyclic(a, d, Keys(result));
  }

  /** Take every remaining pair from a range that has not emitted anything yet. */
  method Drain<S(==), L(==)>(range: ShortestDistanceAcyclicRange<S, L>) returns (result: seq<(S, L)>)
    requires range.Valid() && range.order == range.fullOrder
    modifies range
    ensures IsShortestDistances(range.automaton, range.direction, range.plus, range.times, range.initial, result)
    ensures Keys(result) == range.fullOrder
  {
    result := [];
    ghost var ds: seq<L> := [];
    while !range.Empty()
      invariant range.Valid()
      invariant |result| == range.Emitted() == |ds|
      invariant ds == PulledDistances(range.automaton, range.direction, range.plus, range.times, range.fullOrder, range.initial, |ds|)
      invariant forall i :: 0 <= i < |result| ==> result[i] == (range.fullOrder[i], ds[i])
      decreases |range.order|
    {
      result, ds := TakeNext(range, result, ds);
    }
    ResultIsShortestDistances(range.automaton, range.direction, range.plus, range.times, range.fullOrder, range.initial, result);
  }

  /** Take the next pair from the range and append it to what has been taken. */
  method TakeNext<S(==), L(==)>(range: ShortestDistanceAcyclicRange<S, L>, taken: seq<(S, L)>, ghost ds: seq<L>)
    returns (result: seq<(S, L)>, ghost ds': seq<L>)
    requires range.Valid() && range.order != []
    requires |taken| == range.Emitted() == |ds|
    requires ds == PulledDistances(range.automaton, range.direction, range.plus, range.times, range.fullOrder, range.initial, |ds|)
    requires forall i :: 0 <= i < |taken| ==> taken[i] == (range.fullOrder[i], ds[i])
    modifies range
    ensures range.Valid() && |range.order| < old(|range.order|)
    ensures |result| == range.Emitted() == |ds'|
    ensures ds' == PulledDistances(range.automaton, range.direction, range.plus, range.times, range.fullOrder, range.initial, |ds'|)
    ensures forall i :: 0 <= i < |result| ==> result[i] == (range.fullOrder[i], ds'[i])
  {
    var state, distance := range.ChopInPlace();
    DrainStep(range.automaton, range.direction, range.plus, range.times, range.fullOrder, range.initial, taken, ds, state, distance);
    ds' := ds + [distance];
    result := taken + [(state, distance)];
  }

  /** One step of draining: the emitted pair extends both the result and the reference distances. */
  lemma DrainStep<S, L>(a: AutomatonValue<S, L>, d: Direction, plus: (L, L) -> L, times: (L, L) -> L,
    order: seq<S>, initial: map<S, L>, result: seq<(S, L)>, ds: seq<L>, state: S, distance: L)
    requires |result| == |ds| < |order|
    requires ds == PulledDistances(a, d, plus, times, order, initial, |ds|)
    requires forall i :: 0 <= i < |result| ==> result[i] == (order[i], ds[i])
    requires state == order[|ds|]
    requires distance == PulledDistances(a, d, plus, times, order, initial, |ds| + 1)[|ds|]
    ensures ds + [distance] == PulledDistances(a, d, plus, times, order, initial, |ds| + 1)
    ensures forall i :: 0 <= i < |result| + 1 ==> (result + [(state, distance)])[i] == (order[i], (ds + [distance])[i])
  {
  }

  lemma ResultIsShortestDistances<S, L>(a: AutomatonValue<S, L>, d: Direction, plus: (L, L) -> L, times: (L, L) -> L,
    order: seq<S>, initial: map<S, L>, result: seq<(S, L)>)
    requires IsTopologicalOrder(a, d, order) && |result| == |order|
    requires forall i :: 0 <= i < |result| ==> result[i].0 == order[i]
    requires forall i :: 0 <= i < |result| ==>
      result[i].1 == PulledDistances(a, d, plus, times, order, initial, |result|)[i]
    ensures IsShortestDistances(a, d, plus, times, initial, result)
    ensures Keys(result) == order
  {
    assert Keys(result) == order;
  }

  /** The single-source variant: the source starts at one, every other state at zero. */
  method ShortestDistanceAcyclicFromCompressed<S(==), L(==)>(a: AutomatonValue<S, L>, d: Direction,
    one: L, plus: (L, L) -> L, times: (L, L) -> L, source: S)
    returns (r: Result<seq<(S, L)>, Error<S>>)
    requires a.Valid()
    ensures r.Ok? ==> IsShortestDistances(a, d, plus, times, map[source := one], r.value)
    ensures r.Ok? ==> IsTraversalOrder(a, d, Keys(r.value))
    ensures r.Err? ==> (r.error == StateNotFound(source) && !a.HasState(source)) || r.error.AutomatonNotAcyclic?
    ensures (exists c :: IsCycle(a, d, c)) ==> r.Err? && r.error.AutomatonNotAcyclic?
    ensures (forall c :: !IsCycle(a, d, c)) && a.HasState(source) ==> r.Ok?
  {
    assert FromPairs([(source, one)]) == map[source := one];
    r := ShortestDistanceAcyclicCompressed(a, d, plus, times, [(source, one)]);
  }

  /**
   * The expanded variant: compress the initial labels, compute compressed
   * distances, and expand them again.
   */
  method ShortestDistanceAcyclic<S(==), L(==), E>(a: AutomatonValue<S, L>, d: Direction,
    compress: E -> L, expand: L -> E, plus: (L, L) -> L, times: (L, L) -> L, initial: seq<(S, E)>)
    returns (r: Result<seq<(S, E)>, Error<S>>)
    requires a.Valid()
    ensures r.Ok? ==> exists compressed ::
      IsShortestDistances(a, d, plus, times, FromPairs(TransformLabelsForStates(compress, initial)), compressed) &&
      IsTraversalOrder(a, d, Keys(compressed)) &&
      r.value == TransformLabelsForStates(expand, compressed)
    ensures r.Err? && r.error.StateNotFound? ==>
      !a.HasState(r.error.state) &&
      exists i :: 0 <= i < |initial| && initial[i].0 == r.error.state && forall j :: 0 <= j < i ==> a.HasState(initial[j].0)
    ensures (exists c :: IsCycle(a, d, c)) ==> r.Err? && r.error.AutomatonNotAcyclic?
    ensures (forall c :: !IsCycle(a, d, c)) && (forall i :: 0 <= i < |initial| ==> a.HasState(initial[i].0)) ==> r.Ok?
  {
    var compressedInitial := TransformLabelsForStates(compress, initial);
    var compressed := ShortestDistanceAcyclicCompressed(a, d, plus, times, compressedInitial);
    if compressed.Err? {
      return Err(compressed.error);
    }
    r := Ok(TransformLabelsForStates(expand, compressed.value));
    TopologicalOrderAcyclic(a, d, Keys(compressed.value));
  }

  /** A semiring's direction of multiplication (left, right or both) decides which directions are available. */
  function CanBeImplemented(d: Direction, isLeftSemiring: bool, isRightSemiring: bool): (r: bool)
    ensures d == Forward ==> (r <==> isRightSemiring)
    ensures d == Backward ==> (r <==> isLeftSemiring)
  {
    match MathDirectionOf(Opposite(d))
    case Left => isLeftSemiring
    case Right => isRightSemiring
  }
}
