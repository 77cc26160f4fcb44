// The explicit automaton store (include/flipsta/automaton.hpp): states in
// insertion order, arcs findable from either end, and initial and final labels
// that are set, replaced in place, or erased by setting them to zero.
module ExplicitAutomaton {
  import opened Wrappers
  import opened Core

  /**
   * The arcs of `arcs` (kept oldest first) on state s in direction d, most
   * recently added first: in the forward direction the arcs out of s, in the
   * backward direction the arcs into s.
   */
  function ArcsOn<S(==), L>(arcs: seq<Arc<S, L>>, d: Direction, s: S): seq<Arc<S, L>>
  {
    if arcs == [] then []
    else
      var last := arcs[|arcs| - 1];
      (if last.State(Opposite(d)) == s then [last] else []) + ArcsOn(arcs[..|arcs| - 1], d, s)
  }

  lemma {:induction false} ArcsOnMembers<S, L>(arcs: seq<Arc<S, L>>, d: Direction, s: S)
    ensures forall a :: a in ArcsOn(arcs, d, s) <==> a in arcs && a.State(Opposite(d)) == s
    ensures forall i :: 0 <= i < |ArcsOn(arcs, d, s)| ==>
      ArcsOn(arcs, d, s)[i] in arcs && ArcsOn(arcs, d, s)[i].State(Opposite(d)) == s
    ensures forall i :: 0 <= i < |arcs| && arcs[i].State(Opposite(d)) == s ==> arcs[i] in ArcsOn(arcs, d, s)
    ensures |ArcsOn(arcs, d, s)| <= |arcs|
  {
    if arcs != [] {
      var n := |arcs| - 1;
      ArcsOnMembers(arcs[..n], d, s);
      assert arcs == arcs[..n] + [arcs[n]];
    }
    forall i | 0 <= i < |ArcsOn(arcs, d, s)|
      ensures ArcsOn(arcs, d, s)[i] in arcs && ArcsOn(arcs, d, s)[i].State(Opposite(d)) == s
    {
      assert ArcsOn(arcs, d, s)[i] in ArcsOn(arcs, d, s);
    }
    forall i | 0 <= i < |arcs| && arcs[i].State(Opposite(d)) == s ensures arcs[i] in ArcsOn(arcs, d, s) {
      assert arcs[i] in arcs;
    }
  }

  /** A new arc comes first among the arcs on its state, and other states' arcs do not change. */
  lemma ArcsOnAfterAdding<S, L>(arcs: seq<Arc<S, L>>, a: Arc<S, L>, d: Direction, s: S)
    ensures ArcsOn(arcs + [a], d, s) ==
      if a.State(Opposite(d)) == s then [a] + ArcsOn(arcs, d, s) else ArcsOn(arcs, d, s)
  {
    assert (arcs + [a])[..|arcs|] == arcs;
  }

  /** The label of state s in a terminal list, or zero if s is not in it. */
  function LabelIn<S(==), L>(list: seq<(S, L)>, s: S, zero: L): L
  {
    if list == [] then zero
    else if list[0].0 == s then list[0].1
    else LabelIn(list[1..], s, zero)
  }

  function Keys<S, L>(list: seq<(S, L)>): (ks: seq<S>)
    ensures |ks| == |list|
    ensures forall i :: 0 <= i < |list| ==> ks[i] == list[i].0
  {
    if list == [] then [] else [list[0].0] + Keys(list[1..])
  }

  predicate Distinct<T(==)>(xs: seq<T>)
  {
    forall i, j :: 0 <= i < j < |xs| ==> xs[i] != xs[j]
  }

  /** The position of x in a sequence that contains it: the first one. */
  function IndexOf<T(==)>(s: seq<T>, x: T): (i: nat)
    requires x in s
    ensures i < |s| && s[i] == x
    ensures forall j :: 0 <= j < i ==> s[j] != x
  {
    if s[0] == x then 0 else 1 + IndexOf(s[1..], x)
  }

  /** Give s the label l: replace its entry in place if it has one, otherwise append one. */
  function SetIn<S(==), L>(list: seq<(S, L)>, s: S, l: L): seq<(S, L)>
  {
    if list == [] then [(s, l)]
    else if list[0].0 == s then [(s, l)] + list[1..]
    else [list[0]] + SetIn(list[1..], s, l)
  }

  /** Remove the entry of s, keeping the order of the others. */
  function UnsetIn<S(==), L>(list: seq<(S, L)>, s: S): seq<(S, L)>
  {
    if list == [] then []
    else if list[0].0 == s then UnsetIn(list[1..], s)
    else [list[0]] + UnsetIn(list[1..], s)
  }

  lemma {:induction false} LabelInFound<S, L>(list: seq<(S, L)>, i: nat, zero: L)
    requires i < |list| && Distinct(Keys(list))
    ensures LabelIn(list, list[i].0, zero) == list[i].1
  {
    if i > 0 {
      assert Keys(list)[0] != Keys(list)[i];
      assert Keys(list[1..]) == Keys(list)[1..];
      LabelInFound(list[1..], i - 1, zero);
    }
  }

  lemma {:induction false} LabelInAbsent<S, L>(list: seq<(S, L)>, s: S, zero: L)
    requires s !in Keys(list)
    ensures LabelIn(list, s, zero) == zero
  {
    if list != [] {
      assert Keys(list[1..]) == Keys(list)[1..];
      LabelInAbsent(list[1..], s, zero);
    }
  }

  /**
   * Setting a label: afterwards s has label l, every other state keeps its
   * label, and the states keep their order, s at its old position if it had one
   * and at the end otherwise.
   */
  lemma {:induction false} SetInProperties<S, L>(list: seq<(S, L)>, s: S, l: L, zero: L)
    requires Distinct(Keys(list))
    ensures Distinct(Keys(SetIn(list, s, l)))
    ensures LabelIn(SetIn(list, s, l), s, zero) == l
    ensures forall t :: t != s ==> LabelIn(SetIn(list, s, l), t, zero) == LabelIn(list, t, zero)
    ensures Keys(SetIn(list, s, l)) == if s in Keys(list) then Keys(list) else Keys(list) + [s]
  {
    if list != [] {
      assert Keys(list[1..]) == Keys(list)[1..];
      if list[0].0 == s {
        assert Keys(SetIn(list, s, l)) == [s] + Keys(list[1..]);
        assert s !in Keys(list[1..]) by {
          forall j | 0 <= j < |Keys(list[1..])| ensures Keys(list[1..])[j] != s {
            assert Keys(list)[0] != Keys(list)[j + 1];
          }
        }
        forall t | t != s ensures LabelIn(SetIn(list, s, l), t, zero) == LabelIn(list, t, zero) {
        }
      } else {
        SetInProperties(list[1..], s, l, zero);
        var rest := SetIn(list[1..], s, l);
        assert Keys(SetIn(list, s, l)) == [list[0].0] + Keys(rest);
        assert list[0].0 !in Keys(rest) by {
          forall j | 0 <= j < |Keys(list[1..])| ensures Keys(list[1..])[j] != list[0].0 {
            assert Keys(list)[0] != Keys(list)[j + 1];
          }
        }
      }
    }
  }

  /** Unsetting: afterwards s reads as zero and every other state keeps its label and order. */
  lemma {:induction false} UnsetInProperties<S, L>(list: seq<(S, L)>, s: S, zero: L)
    requires Distinct(Keys(list))
    ensures Distinct(Keys(UnsetIn(list, s)))
    ensures s !in Keys(UnsetIn(list, s))
    ensures LabelIn(UnsetIn(list, s), s, zero) == zero
    ensures forall t :: t != s ==> LabelIn(UnsetIn(list, s), t, zero) == LabelIn(list, t, zero)
    ensures forall t :: t in Keys(UnsetIn(list, s)) <==> t in Keys(list) && t != s
  {
    if list != [] {
      assert Keys(list[1..]) == Keys(list)[1..];
      UnsetInProperties(list[1..], s, zero);
      var rest := UnsetIn(list[1..], s);
      if list[0].0 != s {
        assert Keys(UnsetIn(list, s)) == [list[0].0] + Keys(rest);
        assert list[0].0 !in Keys(list[1..]) by {
          forall j | 0 <= j < |Keys(list[1..])| ensures Keys(list[1..])[j] != list[0].0 {
            assert Keys(list)[0] != Keys(list)[j + 1];
          }
        }
      } else {
        assert list[0].0 !in Keys(list[1..]) by {
          forall j | 0 <= j < |Keys(list[1..])| ensures Keys(list[1..])[j] != list[0].0 {
            assert Keys(list)[0] != Keys(list)[j + 1];
          }
        }
        forall t | t != s ensures LabelIn(UnsetIn(list, s), t, zero) == LabelIn(list, t, zero) {
        }
      }
      LabelInAbsent(UnsetIn(list, s), s, zero);
    } else {
      LabelInAbsent(UnsetIn(list, s), s, zero);
    }
  }

  /** A terminal list names each state at most once, only states of the automaton, never with label zero. */
  ghost predicate TerminalListValid<S, L>(list: seq<(S, L)>, states: seq<S>, zero: L)
  {
    && Distinct(Keys(list))
    && forall i :: 0 <= i < |list| ==> list[i].0 in states && list[i].1 != zero
  }

  lemma {:induction false} LabelInSpec<S, L>(list: seq<(S, L)>, s: S, zero: L)
    requires Distinct(Keys(list))
    ensures s !in Keys(list) ==> LabelIn(list, s, zero) == zero
    ensures forall i :: 0 <= i < |list| && list[i].0 == s ==> LabelIn(list, s, zero) == list[i].1
  {
    if s !in Keys(list) {
      LabelInAbsent(list, s, zero);
    }
    forall i | 0 <= i < |list| && list[i].0 == s ensures LabelIn(list, s, zero) == list[i].1 {
      LabelInFound(list, i, zero);
    }
  }

  /** Setting a state's label (erasing it for zero) keeps a terminal list valid. */
  lemma UpdateKeepsListValid<S, L>(list: seq<(S, L)>, states: seq<S>, s: S, l: L, zero: L)
    requires TerminalListValid(list, states, zero) && s in states
    ensures TerminalListValid(if l == zero then UnsetIn(list, s) else SetIn(list, s, l), states, zero)
    ensures LabelIn(if l == zero then UnsetIn(list, s) else SetIn(list, s, l), s, zero) == l
    ensures forall t :: t != s ==>
      LabelIn(if l == zero then UnsetIn(list, s) else SetIn(list, s, l), t, zero) == LabelIn(list, t, zero)
  {
    if l == zero {
      UnsetInProperties(list, s, zero);
      var updated := UnsetIn(list, s);
      forall i | 0 <= i < |updated| ensures updated[i].0 in states && updated[i].1 != zero {
        UnsetInMember(list, s, updated[i]);
      }
    } else {
      SetInProperties(list, s, l, zero);
      var updated := SetIn(list, s, l);
      forall i | 0 <= i < |updated| ensures updated[i].0 in states && updated[i].1 != zero {
        SetInMember(list, s, l, updated[i]);
      }
    }
  }

  /**
   * Replacing the terminal list of one direction by the list with s's label
   * set (erased for zero) keeps the value valid, gives s the label and
   * leaves every other state's label alone.
   */
  lemma TerminalUpdate<S, L>(v: AutomatonValue<S, L>, v': AutomatonValue<S, L>, d: Direction, s: S, l: L)
    requires v.Valid() && s in v.states
    requires v'.zero == v.zero && v'.states == v.states && v'.arcs == v.arcs
    requires v'.TerminalStates(d) ==
      if l == v.zero then UnsetIn(v.TerminalStates(d), s) else SetIn(v.TerminalStates(d), s, l)
    requires v'.TerminalStates(Opposite(d)) == v.TerminalStates(Opposite(d))
    ensures v'.Valid()
    ensures v'.TerminalLabel(d, s) == l
    ensures forall t :: t != s ==> v'.TerminalLabel(d, t) == v.TerminalLabel(d, t)
  {
    UpdateKeepsListValid(v.TerminalStates(d), v.states, s, l, v.zero);
    assert v'.initialStates == v'.TerminalStates(Forward) && v'.finalStates == v'.TerminalStates(Backward);
  }

  /** The content of an automaton as a value: what every read-only operation sees. */
  datatype AutomatonValue<S(==), L(==)> = AutomatonValue(
    zero: L,
    states: seq<S>,
    arcs: seq<Arc<S, L>>,
    initialStates: seq<(S, L)>,
    finalStates: seq<(S, L)>)
  {
    ghost predicate Valid()
    {
      && Distinct(states)
      && (forall a :: a in arcs ==> a.source in states && a.destination in states)
      && TerminalListValid(initialStates, states, zero)
      && TerminalListValid(finalStates, states, zero)
    }

    predicate HasState(s: S)
    {
      s in states
    }

    /** The initial states (forward) or the final states (backward) with their labels, in order of first setting. */
    function TerminalStates(d: Direction): seq<(S, L)>
    {
      if d == Forward then initialStates else finalStates
    }

    /** The terminal label of s in direction d; zero for a state that is not terminal or does not exist. */
    function TerminalLabel(d: Direction, s: S): (l: L)
      requires Distinct(Keys(TerminalStates(d)))
      ensures s !in Keys(TerminalStates(d)) ==> l == zero
      ensures forall i :: 0 <= i < |TerminalStates(d)| && TerminalStates(d)[i].0 == s ==>
        l == TerminalStates(d)[i].1
    {
      LabelInSpec(TerminalStates(d), s, zero);
      LabelIn(TerminalStates(d), s, zero)
    }

    /** The arcs out of s (forward) or into s (backward), most recently added first. */
    function ArcsOnState(d: Direction, s: S): (r: seq<Arc<S, L>>)
      ensures forall i :: 0 <= i < |r| ==> r[i] in arcs && r[i].State(Opposite(d)) == s
      ensures forall i :: 0 <= i < |arcs| && arcs[i].State(Opposite(d)) == s ==> arcs[i] in r
    {
      ArcsOnMembers(arcs, d, s);
      ArcsOn(arcs, d, s)
    }
  }

  class Automaton<S(==), L(==)> {
    /** The zero label: setting it as a terminal label erases the entry. */
    const zero: L
    var states: seq<S>
    var arcs: seq<Arc<S, L>>
    var initialStates: seq<(S, L)>
    var finalStates: seq<(S, L)>

    function Value(): AutomatonValue<S, L>
      reads this
    {
      AutomatonValue(zero, states, arcs, initialStates, finalStates)
    }

    ghost predicate Valid()
      reads this
    {
      Value().Valid()
    }

    constructor (zero: L)
      ensures Valid() && this.zero == zero
      ensures states == [] && arcs == [] && initialStates == [] && finalStates == []
    {
      this.zero := zero;
      states, arcs, initialStates, finalStates := [], [], [], [];
    }

    function HasState(s: S): (r: bool)
      reads this
      ensures r <==> s in states
    {
      s in states
    }

    function States(): seq<S>
      reads this
    {
      states
    }

    method AddState(s: S) returns (r: Outcome<Error<S>>)
      requires Valid()
      modifies this
      ensures Valid()
      ensures r == (if s in old(states) then Fail(StateExists(s)) else Pass)
      ensures states == if r.Fail? then old(states) else old(states) + [s]
      ensures arcs == old(arcs) && initialStates == old(initialStates) && finalStates == old(finalStates)
    {
      if HasState(s) {
        return Fail(StateExists(s));
      }
      states := states + [s];
      r := Pass;
    }

    method AddArc(source: S, destination: S, l: L) returns (r: Outcome<Error<S>>)
      requires Valid()
      modifies this
      ensures Valid()
      ensures r == (if source !in states then Fail(StateNotFound(source))
                    else if destination !in states then Fail(StateNotFound(destination))
                    else Pass)
      ensures arcs == if r.Fail? then old(arcs) else old(arcs) + [Arc(source, destination, l)]
      ensures r.Pass? ==>
        && Value().ArcsOnState(Forward, source) == [Arc(source, destination, l)] + old(Value()).ArcsOnState(Forward, source)
        && Value().ArcsOnState(Backward, destination) == [Arc(source, destination, l)] + old(Value()).ArcsOnState(Backward, destination)
      ensures states == old(states) && initialStates == old(initialStates) && finalStates == old(finalStates)
    {
      if !HasState(source) {
        return Fail(StateNotFound(source));
      }
      if !HasState(destination) {
        return Fail(StateNotFound(destination));
      }
      var a := MakeArc(Forward, source, destination, l);
      ArcsOnAfterAdding(arcs, a, Forward, source);
      ArcsOnAfterAdding(arcs, a, Backward, destination);
      arcs := arcs + [a];
      r := Pass;
    }

    /**
     * Set the initial (forward) or final (backward) label of s.  A zero label
     * erases s from that terminal list; any other label replaces its label in
     * place or appends s.
     */
    method SetTerminalLabel(d: Direction, s: S, l: L) returns (r: Outcome<Error<S>>)
      requires Valid()
      modifies this
      ensures Valid()
      ensures r == (if s in states then Pass else Fail(StateNotFound(s)))
      ensures r.Fail? ==> Value() == old(Value())
      ensures r.Pass? ==>
        Value().TerminalStates(d) ==
          if l == zero then UnsetIn(old(Value()).TerminalStates(d), s)
          else SetIn(old(Value()).TerminalStates(d), s, l)
      ensures r.Pass? ==> Value().TerminalLabel(d, s) == l
      ensures forall t :: t != s ==> Value().TerminalLabel(d, t) == old(Value()).TerminalLabel(d, t)
      ensures Value().TerminalStates(Opposite(d)) == old(Value()).TerminalStates(Opposite(d))
      ensures states == old(states) && arcs == old(arcs)
    {
      if !HasState(s) {
        return Fail(StateNotFound(s));
      }
      r := Pass;
      var list := if d == Forward then initialStates else finalStates;
      var updated := if l == zero then UnsetIn(list, s) else SetIn(list, s, l);
      if d == Forward {
        initialStates := updated;
      } else {
        finalStates := updated;
      }
      TerminalUpdate(old(Value()), Value(), d, s, l);
    }

    function TerminalStatesCompressed(d: Direction): (r: seq<(S, L)>)
      reads this
      requires Valid()
      ensures forall i :: 0 <= i < |r| ==> r[i].0 in states && r[i].1 != zero
    {
      Value().TerminalStates(d)
    }

    function TerminalLabelCompressed(d: Direction, s: S): (l: L)
      reads this
      requires Valid()
      ensures s !in states ==> l == zero
      ensures l != zero <==> s in Keys(Value().TerminalStates(d))
    {
      Value().TerminalLabel(d, s)
    }

    function ArcsOnCompressed(d: Direction, s: S): (r: seq<Arc<S, L>>)
      reads this
      ensures forall i :: 0 <= i < |r| ==> r[i] in arcs && r[i].State(Opposite(d)) == s
      ensures forall i :: 0 <= i < |arcs| && arcs[i].State(Opposite(d)) == s ==> arcs[i] in r
    {
      Value().ArcsOnState(d, s)
    }
  }

  lemma {:induction false} UnsetInMember<S, L>(list: seq<(S, L)>, s: S, p: (S, L))
    requires p in UnsetIn(list, s)
    ensures p in list && p.0 != s
  {
    if list != [] {
      if list[0].0 == s || p != list[0] {
        UnsetInMember(list[1..], s, p);
      }
    }
  }

  lemma {:induction false} SetInMember<S, L>(list: seq<(S, L)>, s: S, l: L, p: (S, L))
    requires p in SetIn(list, s, l)
    ensures p in list || p == (s, l)
  {
    if list != [] && list[0].0 != s && p != list[0] {
      SetInMember(list[1..], s, l, p);
    }
  }
}
