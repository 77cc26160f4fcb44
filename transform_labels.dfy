// The transformed-label view (include/flipsta/transform_labels.hpp): an
// automaton that forwards every query to an underlying automaton and passes
// each compressed label, on arcs and terminal states alike, through a function.
module TransformLabels {
  import opened Wrappers
  import opened Core
  import opened ExplicitAutomaton
  import opened Traverse
  import opened TopologicalOrder

  /** The underlying automaton and the function applied to its compressed labels. */
  datatype TransformedLabelAutomaton<S(==), !L(==), M(==)> =
    TransformedLabelAutomaton(underlying: AutomatonValue<S, L>, convert: L -> M)
  {
    function States(): seq<S>
    {
      underlying.states
    }

    predicate HasState(s: S)
    {
      underlying.HasState(s)
    }

    /** The underlying terminal states in the same order, each label converted. */
    function TerminalStatesCompressed(d: Direction): seq<(S, M)>
    {
      TransformLabelsForStates(convert, underlying.TerminalStates(d))
    }

    /** The converted underlying terminal label; zero is converted too. */
    function TerminalLabelCompressed(d: Direction, s: S): M
      requires Distinct(Keys(underlying.TerminalStates(d)))
    {
      convert(underlying.TerminalLabel(d, s))
    }

    /** The underlying arcs on s, in the same order, each label converted. */
    function ArcsOnCompressed(d: Direction, s: S): seq<Arc<S, M>>
    {
      TransformArcs(underlying.ArcsOnState(d, s), convert)
    }

    /**
     * The explicit automaton that has the underlying states and the
     * underlying arcs with converted labels: the graph this view presents.
     */
    function Graph(): AutomatonValue<S, M>
    {
      AutomatonValue(convert(underlying.zero), underlying.states, TransformArcs(underlying.arcs, convert),
        TransformLabelsForStates(convert, underlying.initialStates),
        TransformLabelsForStates(convert, underlying.finalStates))
    }
  }

  /** transformLabels: wrap an automaton so that its labels are converted on the fly. */
  function TransformLabels<S(==), L(==), M(==)>(underlying: AutomatonValue<S, L>, f: L -> M)
    : (t: TransformedLabelAutomaton<S, L, M>)
    ensures t.States() == underlying.states
    ensures forall d: Direction :: Keys(t.TerminalStatesCompressed(d)) == Keys(underlying.TerminalStates(d))
  {
    var t := TransformedLabelAutomaton(underlying, f);
    forall d: Direction ensures Keys(t.TerminalStatesCompressed(d)) == Keys(underlying.TerminalStates(d)) {
    }
    t
  }

  /**
   * Arcs on a state of the view are exactly the arcs that an explicit
   * automaton holding the converted arcs returns, in the same order.
   */
  lemma ArcsOnMatchGraph<S, L, M>(t: TransformedLabelAutomaton<S, L, M>, d: Direction, s: S)
    ensures t.ArcsOnCompressed(d, s) == t.Graph().ArcsOnState(d, s)
  {
    ArcsOnCommutes(t.underlying.arcs, t.convert, d, s);
  }

  /** Selecting the arcs on a state and converting labels can be done in either order. */
  lemma {:induction false} ArcsOnCommutes<S, L, M>(arcs: seq<Arc<S, L>>, f: L -> M, d: Direction, s: S)
    ensures ArcsOn(TransformArcs(arcs, f), d, s) == TransformArcs(ArcsOn(arcs, d, s), f)
  {
    if arcs != [] {
      var n := |arcs| - 1;
      var converted := TransformArcs(arcs, f);
      var head := if arcs[n].State(Opposite(d)) == s then [arcs[n]] else [];
      assert ArcsOn(arcs, d, s) == head + ArcsOn(arcs[..n], d, s);
      assert converted[..n] == TransformArcs(arcs[..n], f);
      assert converted[n].State(Opposite(d)) == arcs[n].State(Opposite(d));
      assert ArcsOn(converted, d, s) == TransformArcs(head, f) + ArcsOn(converted[..n], d, s);
      ArcsOnCommutes(arcs[..n], f, d, s);
      TransformArcsAppend(head, ArcsOn(arcs[..n], d, s), f);
    }
  }

  lemma TransformArcsAppend<S, L, M>(xs: seq<Arc<S, L>>, ys: seq<Arc<S, L>>, f: L -> M)
    ensures TransformArcs(xs + ys, f) == TransformArcs(xs, f) + TransformArcs(ys, f)
  {
    var lhs := TransformArcs(xs + ys, f);
    var rhs := TransformArcs(xs, f) + TransformArcs(ys, f);
    forall i | 0 <= i < |lhs| ensures lhs[i] == rhs[i] {
      if i < |xs| {
        assert (xs + ys)[i] == xs[i];
      } else {
        assert (xs + ys)[i] == ys[i - |xs|];
      }
    }
  }

  /** The view has the same edges as the underlying automaton, so the same paths and cycles. */
  lemma EdgesAgree<S, L, M>(t: TransformedLabelAutomaton<S, L, M>, d: Direction)
    ensures forall u, v :: Edge(t.Graph(), d, u, v) <==> Edge(t.underlying, d, u, v)
  {
    var g := t.Graph();
    var arcs := t.underlying.arcs;
    forall u, v ensures Edge(g, d, u, v) <==> Edge(t.underlying, d, u, v) {
      if Edge(g, d, u, v) {
        var arc :| arc in g.arcs && arc.State(Opposite(d)) == u && arc.State(d) == v;
        var i :| 0 <= i < |g.arcs| && g.arcs[i] == arc;
        assert arcs[i] in arcs;
      }
      if Edge(t.underlying, d, u, v) {
        var arc :| arc in arcs && arc.State(Opposite(d)) == u && arc.State(d) == v;
        var i :| 0 <= i < |arcs| && arcs[i] == arc;
        assert g.arcs[i] in g.arcs;
      }
    }
  }

  /** A sequence of states is a topological order of the view exactly when it is one of the underlying automaton. */
  lemma TopologicalOrderCarriesOver<S, L, M>(t: TransformedLabelAutomaton<S, L, M>, d: Direction, order: seq<S>)
    ensures IsTopologicalOrder(t.Graph(), d, order) <==> IsTopologicalOrder(t.underlying, d, order)
  {
    var g := t.Graph();
    var arcs := t.underlying.arcs;
    if IsTopologicalOrder(g, d, order) {
      forall i, j, arc | 0 <= i < |order| && 0 <= j < |order| && arc in arcs &&
          order[i] == arc.State(Opposite(d)) && order[j] == arc.State(d)
        ensures i < j
      {
        var k :| 0 <= k < |arcs| && arcs[k] == arc;
        assert g.arcs[k] in g.arcs;
      }
    }
    if IsTopologicalOrder(t.underlying, d, order) {
      forall i, j, arc | 0 <= i < |order| && 0 <= j < |order| && arc in g.arcs &&
          order[i] == arc.State(Opposite(d)) && order[j] == arc.State(d)
        ensures i < j
      {
        var k :| 0 <= k < |g.arcs| && g.arcs[k] == arc;
        assert arcs[k] in arcs;
      }
    }
  }

  lemma CyclesAgree<S, L, M>(t: TransformedLabelAutomaton<S, L, M>, d: Direction, c: seq<S>)
    ensures IsCycle(t.Graph(), d, c) <==> IsCycle(t.underlying, d, c)
  {
    EdgesAgree(t, d);
  }

  /**
   * The topological order of the view is that of the underlying automaton
   * (the underlying member implementation if it has one); it is one of the
   * view, and a cycle reported is a cycle of the view.
   */
  method TopologicalOrderOfView<S(==), L(==), M(==)>(t: TransformedLabelAutomaton<S, L, M>, d: Direction,
    member: Option<Result<seq<S>, Error<S>>>)
    returns (r: Result<seq<S>, Error<S>>)
    requires t.underlying.Valid()
    ensures member.Some? ==> r == member.value
    ensures member.None? && r.Ok? ==> IsTopologicalOrder(t.Graph(), d, r.value)
    ensures member.None? && r.Err? ==> exists c :: IsCycle(t.Graph(), d, c) && c[0] == r.error.state
    ensures member.None? && r.Ok? ==> IsTraversalOrder(t.underlying, d, r.value)
    ensures member.None? && r.Err? ==> IsReportedBackState(t.underlying, d, r.error.state)
  {
    r := TopologicalOrderOf(t.underlying, d, member);
    if member.None? {
      if r.Ok? {
        TopologicalOrderCarriesOver(t, d, r.value);
      } else {
        ghost var c :| IsCycle(t.underlying, d, c) && c[0] == r.error.state;
        CyclesAgree(t, d, c);
      }
    }
  }

  /** The view's terminal list has the underlying states in order, each label converted. */
  lemma TerminalStatesConverted<S, L, M>(t: TransformedLabelAutomaton<S, L, M>, d: Direction)
    ensures t.TerminalStatesCompressed(d) == t.Graph().TerminalStates(d)
    ensures Keys(t.TerminalStatesCompressed(d)) == Keys(t.underlying.TerminalStates(d))
    ensures forall i :: 0 <= i < |t.TerminalStatesCompressed(d)| ==>
      t.TerminalStatesCompressed(d)[i].1 == t.convert(t.underlying.TerminalStates(d)[i].1)
  {
  }

  /**
   * The terminal label of a state that is not terminal, or does not exist,
   * is the converted zero; that of a terminal state its converted label.
   */
  lemma TerminalLabelConverted<S, L, M>(t: TransformedLabelAutomaton<S, L, M>, d: Direction, s: S)
    requires t.underlying.Valid()
    ensures s !in Keys(t.underlying.TerminalStates(d)) ==> t.TerminalLabelCompressed(d, s) == t.convert(t.underlying.zero)
    ensures forall i :: 0 <= i < |t.TerminalStatesCompressed(d)| && t.TerminalStatesCompressed(d)[i].0 == s ==>
      t.TerminalLabelCompressed(d, s) == t.TerminalStatesCompressed(d)[i].1
  {
  }

  /**
   * ExpandAndCompress: the new compressed label of an old compressed label is
   * its expansion passed through f and compressed for the new descriptor.
   */
  function ExpandAndCompress<C, E, F, D>(expandOld: C -> E, f: E -> F, compressNew: F -> D): (g: C -> D)
  {
    c => compressNew(f(expandOld(c)))
  }

  /** transformExpandedLabels: transformLabels with f lifted to compressed labels. */
  function TransformExpandedLabels<S(==), L(==), E, F, M(==)>(underlying: AutomatonValue<S, L>,
    expandOld: L -> E, f: E -> F, compressNew: F -> M): TransformedLabelAutomaton<S, L, M>
  {
    TransformLabels(underlying, ExpandAndCompress(expandOld, f, compressNew))
  }

  /**
   * When the new descriptor expands what it compresses back unchanged, the
   * expanded labels of the view are f of the expanded underlying labels: on
   * the arcs (with endpoints unchanged) and on the terminal states.
   */
  lemma ExpandedLabelsTransformed<S, L, E, F, M>(underlying: AutomatonValue<S, L>,
    expandOld: L -> E, f: E -> F, compressNew: F -> M, expandNew: M -> F, d: Direction, s: S)
    requires underlying.Valid()
    requires forall x: F :: expandNew(compressNew(x)) == x
    ensures var t := TransformExpandedLabels(underlying, expandOld, f, compressNew);
      AutomaticArcsOn(expandNew, t.ArcsOnCompressed(d, s)) ==
        TransformArcs(AutomaticArcsOn(expandOld, underlying.ArcsOnState(d, s)), f)
    ensures var t := TransformExpandedLabels(underlying, expandOld, f, compressNew);
      AutomaticTerminalLabel(expandNew, t.TerminalLabelCompressed(d, s)) ==
        f(AutomaticTerminalLabel(expandOld, underlying.TerminalLabel(d, s)))
  {
    var t := TransformExpandedLabels(underlying, expandOld, f, compressNew);
    var lhs := AutomaticArcsOn(expandNew, t.ArcsOnCompressed(d, s));
    var rhs := TransformArcs(AutomaticArcsOn(expandOld, underlying.ArcsOnState(d, s)), f);
    assert |lhs| == |rhs|;
    forall i | 0 <= i < |lhs| ensures lhs[i] == rhs[i] {
      var arc := underlying.ArcsOnState(d, s)[i];
      assert lhs[i].arcLabel == expandNew(compressNew(f(expandOld(arc.arcLabel))));
      assert lhs[i].State(Forward) == rhs[i].State(Forward);
      assert lhs[i].State(Backward) == rhs[i].State(Backward);
    }
    ExpandsBack(compressNew, expandNew, f(expandOld(underlying.TerminalLabel(d, s))));
  }

  lemma ExpandsBack<F, M>(compressNew: F -> M, expandNew: M -> F, y: F)
    requires forall x: F :: expandNew(compressNew(x)) == x
    ensures expandNew(compressNew(y)) == y
  {
  }
}
