// Directions, explicit arcs, the direction-dependent product and the default
// ("automatic") operations that every automaton gets from
// include/flipsta/core.hpp and include/flipsta/arc.hpp.
module Core {
  import opened Wrappers

  /** The direction in which an automaton is traversed. */
  datatype Direction = Forward | Backward

  /** The direction of multiplication that a direction corresponds to. */
  datatype MathDirection = Left | Right

  /** The errors that the automaton operations raise. */
  datatype Error<S> =
    | StateExists(state: S)
    | StateNotFound(state: S)
    | AutomatonNotAcyclic(state: S)

  function Opposite(d: Direction): (o: Direction)
    ensures o != d
    ensures o == Forward <==> d == Backward
  {
    match d
    case Forward => Backward
    case Backward => Forward
  }

  /** Forward corresponds to a left semiring, Backward to a right one. */
  function MathDirectionOf(d: Direction): (m: MathDirection)
    ensures m == Left <==> d == Forward
  {
    if d == Forward then Left else Right
  }

  /**
   * The product in a direction: along a forward path the label met first is
   * the left operand; along a backward path it is the right operand.
   */
  function Times<L>(d: Direction, times: (L, L) -> L, left: L, right: L): L
  {
    match d
    case Forward => times(left, right)
    case Backward => times(right, left)
  }

  lemma TimesBackwardSwaps<L>(times: (L, L) -> L, left: L, right: L)
    ensures Times(Backward, times, left, right) == Times(Forward, times, right, left)
    ensures Times(Opposite(Forward), times, left, right) == times(right, left)
  {
  }

  lemma TimesOnSequences()
    ensures Times(Forward, (l: string, r: string) => l + r, "a", "b") == "ab"
    ensures Times(Backward, (l: string, r: string) => l + r, "a", "b") == "ba"
    ensures Times(Backward, (l: string, r: string) => l + r, "a", "") == "a"
  {
  }

  /**
   * An arc with a source, a destination and a label.  The source is the state
   * seen when looking backward, the destination the state seen looking forward.
   */
  datatype Arc<S, L> = Arc(source: S, destination: S, arcLabel: L)
  {
    function State(d: Direction): (s: S)
      ensures d == Backward ==> s == source
      ensures d == Forward ==> s == destination
    {
      if d == Backward then source else destination
    }
  }

  /**
   * Construct an arc from the state it starts at in direction d, the state it
   * leads to in that direction, and its label.  In the forward direction the
   * arguments are (source, destination); backward they are (destination, source).
   */
  function MakeArc<S, L>(d: Direction, from: S, to: S, l: L): (a: Arc<S, L>)
    ensures a.State(Opposite(d)) == from && a.State(d) == to && a.arcLabel == l
    ensures d == Forward ==> a.source == from && a.destination == to
    ensures d == Backward ==> a.destination == from && a.source == to
  {
    match d
    case Forward => Arc(from, to, l)
    case Backward => Arc(to, from, l)
  }

  /** Copy construction from any arc, through its state(Backward), state(Forward) and label(). */
  function CopyArc<S, L>(other: Arc<S, L>): (a: Arc<S, L>)
    ensures a.State(Backward) == other.State(Backward)
    ensures a.State(Forward) == other.State(Forward)
    ensures a.arcLabel == other.arcLabel
  {
    Arc(other.State(Backward), other.State(Forward), other.arcLabel)
  }

  /** The arc with the same endpoints and its label converted by f. */
  function TransformedArc<S, L, M>(a: Arc<S, L>, f: L -> M): (t: Arc<S, M>)
    ensures forall d: Direction :: t.State(d) == a.State(d)
    ensures t.arcLabel == f(a.arcLabel)
  {
    Arc(a.source, a.destination, f(a.arcLabel))
  }

  function TransformArcs<S, L, M>(arcs: seq<Arc<S, L>>, f: L -> M): (r: seq<Arc<S, M>>)
    ensures |r| == |arcs|
    ensures forall i :: 0 <= i < |r| ==> r[i] == TransformedArc(arcs[i], f)
  {
    if arcs == [] then [] else [TransformedArc(arcs[0], f)] + TransformArcs(arcs[1..], f)
  }

  /** The pairs with every label converted by f . */
  function TransformLabelsForStates<S, L, M>(f: L -> M, pairs: seq<(S, L)>): (r: seq<(S, M)>)
    ensures |r| == |pairs|
    ensures forall i :: 0 <= i < |r| ==> r[i].0 == pairs[i].0 && r[i].1 == f(pairs[i].1)
  {
    if pairs == [] then [] else [(pairs[0].0, f(pairs[0].1))] + TransformLabelsForStates(f, pairs[1..])
  }

  /**
   * The automatic terminalLabel: the expanded form of the compressed terminal
   * label, where a compressed label of zero stands for a state that is not
   * terminal or does not exist.
   */
  function AutomaticTerminalLabel<C, L>(expand: C -> L, compressed: C): L
  {
    expand(compressed)
  }

  /**
   * The automatic arcsOn: the compressed arcs with their labels expanded and
   * their endpoints unchanged.
   */
  function AutomaticArcsOn<S, C, L>(expand: C -> L, compressed: seq<Arc<S, C>>): (r: seq<Arc<S, L>>)
    ensures |r| == |compressed|
    ensures forall i, d: Direction :: 0 <= i < |r| ==>
      r[i].State(d) == compressed[i].State(d) && r[i].arcLabel == expand(compressed[i].arcLabel)
  {
    TransformArcs(compressed, expand)
  }

  /**
   * The dispatch rule for operations: the first implementation that exists is
   * used; the last entry stands for the automatic implementation.
   */
  function TryAll<T>(implementations: seq<Option<T>>): (r: Option<T>)
    requires |implementations| > 0
    ensures r.Some? <==> exists i :: 0 <= i < |implementations| && implementations[i].Some?
    ensures r.Some? ==>
      (exists i :: 0 <= i < |implementations| && implementations[i] == r &&
        (forall j :: 0 <= j < i ==> implementations[j].None?))
  {
    if implementations[0].Some? || |implementations| == 1 then implementations[0]
    else
      var rest := TryAll(implementations[1..]);
      assert forall i :: 1 <= i < |implementations| ==> implementations[i] == implementations[1..][i - 1];
      rest
  }

  lemma MemberPreferred<T>(member: T, automatic: T)
    ensures TryAll([Some(member), Some(automatic)]) == Some(member)
    ensures TryAll([None, Some(automatic)]) == Some(automatic)
  {
  }
}
