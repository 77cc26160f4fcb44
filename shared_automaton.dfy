// Jointly minimised acyclic automata (include/flipsta/shared_automaton.hpp):
// weighted tries whose states are normalised, so that the weights are pushed
// to the front and equal suffixes are the same state.
//
// A state is a value: the store of include/flipsta/detail/sole.hpp hands out
// one pointer per distinct value, so comparing state pointers is comparing
// state values.  Arcs are kept as a list in increasing key order, which is how
// a std::map iterates.
module SharedAutomaton {
  import opened Wrappers
  import opened Tropical

  type Key = char

  /** A state: the weight of paths ending here, and one arc per key. */
  datatype State = State(finalWeight: Weight, arcs: seq<(Key, Automaton)>)

  /** An automaton: null (start weight zero, no state) or a start weight and a state. */
  datatype Automaton = Null | Shared(startWeight: Weight, state: State)

  /** The singleton final state: final weight one and no arcs. */
  const FinalState: State := State(One, [])

  function StartWeight(a: Automaton): (w: Weight)
    ensures a.Null? ==> w == Zero
  {
    match a
    case Null => Zero
    case Shared(w, _) => w
  }

  predicate IsNull(a: Automaton)
  {
    StartWeight(a) == Zero
  }

  /**
   * The constructor SharedAutomaton(startWeight, state): a zero start weight
   * drops the state; otherwise the state must not be null.
   */
  function MakeShared(w: Weight, s: Option<State>): (a: Automaton)
    requires w != Zero ==> s.Some?
    ensures a.Null? <==> w == Zero
    ensures StartWeight(a) == w
  {
    if w == Zero then Null else Shared(w, s.value)
  }

  /** premultiply: the start weight becomes w times the start weight. */
  function Premultiply(a: Automaton, w: Weight): (r: Automaton)
    ensures StartWeight(r) == Times(w, StartWeight(a))
  {
    match a
    case Null => Null
    case Shared(s, state) => Shared(Times(w, s), state)
  }

  /** predivide: the start weight is divided by w from the left. */
  function Predivide(a: Automaton, w: Weight): (r: Automaton)
    requires w == Zero ==> StartWeight(a) == Zero
    ensures Times(w, StartWeight(r)) == StartWeight(a)
  {
    match a
    case Null => Null
    case Shared(s, state) => Shared(LeftDivide(s, w), state)
  }

  /** The automaton an arc of a union points to: weight pre times the arc's start weight, same state. */
  function Pre(pre: Weight, a: Automaton): (r: Automaton)
    ensures StartWeight(r) == Times(pre, StartWeight(a))
  {
    match a
    case Null => Null
    case Shared(s, state) => MakeShared(Times(pre, s), Some(state))
  }

  // Sizes, only to show that the recursion of union terminates.

  function Size(a: Automaton): nat
    decreases a, 0
  {
    match a
    case Null => 0
    case Shared(_, s) => 1 + SizeFrom(s, 0)
  }

  function SizeFrom(s: State, i: nat): nat
    requires i <= |s.arcs|
    decreases s, |s.arcs| - i
  {
    if i == |s.arcs| then 0 else 1 + Size(s.arcs[i].1) + SizeFrom(s, i + 1)
  }

  function ListSize(arcs: seq<(Key, Automaton)>): nat
  {
    SizeFrom(State(Zero, arcs), 0)
  }

  lemma {:induction false} SizeFromShift(s: State, z: Weight, i: nat)
    requires 1 <= i <= |s.arcs|
    ensures SizeFrom(s, i) == SizeFrom(State(z, s.arcs[1..]), i - 1)
    decreases |s.arcs| - i
  {
    if i < |s.arcs| {
      SizeFromShift(s, z, i + 1);
    }
  }

  lemma {:induction false} SizeFromFinal(s: State, z: Weight, i: nat)
    requires i <= |s.arcs|
    ensures SizeFrom(s, i) == SizeFrom(State(z, s.arcs), i)
    decreases |s.arcs| - i
  {
    if i < |s.arcs| {
      SizeFromFinal(s, z, i + 1);
    }
  }

  lemma ListSizeCons(arcs: seq<(Key, Automaton)>)
    requires arcs != []
    ensures ListSize(arcs) == 1 + Size(arcs[0].1) + ListSize(arcs[1..])
  {
    SizeFromShift(State(Zero, arcs), Zero, 1);
  }

  lemma SizeOfShared(w: Weight, s: State)
    ensures Size(Shared(w, s)) == 1 + ListSize(s.arcs)
  {
    SizeFromFinal(s, Zero, 0);
  }

  function PreSize(pre: Weight, a: Automaton): (r: Automaton)
    ensures r == Pre(pre, a) && Size(r) <= Size(a)
  {
    Pre(pre, a)
  }

  /** Every arc's automaton through Pre with the same weight. */
  function Scaled(pre: Weight, arcs: seq<(Key, Automaton)>): (r: seq<(Key, Automaton)>)
    ensures |r| == |arcs|
    ensures ListSize(r) <= ListSize(arcs)
  {
    if arcs == [] then []
    else
      var r := [(arcs[0].0, PreSize(pre, arcs[0].1))] + Scaled(pre, arcs[1..]);
      ListSizeCons(arcs);
      ListSizeCons(r);
      assert r[1..] == Scaled(pre, arcs[1..]);
      r
  }

  /** Scaled keeps each arc's key and weights its automaton by pre. */
  lemma {:induction false} ScaledAt(pre: Weight, arcs: seq<(Key, Automaton)>)
    ensures forall i :: 0 <= i < |arcs| ==> Scaled(pre, arcs)[i] == (arcs[i].0, Pre(pre, arcs[i].1))
  {
    if arcs != [] {
      ScaledAt(pre, arcs[1..]);
      forall i | 0 <= i < |arcs| ensures Scaled(pre, arcs)[i] == (arcs[i].0, Pre(pre, arcs[i].1)) {
        if i > 0 {
          assert Scaled(pre, arcs)[i] == Scaled(pre, arcs[1..])[i - 1];
          assert arcs[1..][i - 1] == arcs[i];
        }
      }
    }
  }

  /** The sum of a start weight and the arcs' start weights, added in key order. */
  function SumFrom(start: Weight, arcs: seq<(Key, Automaton)>): (sum: Weight)
    ensures sum == Zero ==> start == Zero && forall i :: 0 <= i < |arcs| ==> StartWeight(arcs[i].1) == Zero
    decreases |arcs|
  {
    if arcs == [] then start
    else SumFrom(Plus(start, StartWeight(arcs[0].1)), arcs[1..])
  }

  function PredivideArcs(arcs: seq<(Key, Automaton)>, w: Weight): (r: seq<(Key, Automaton)>)
    requires w == Zero ==> forall i :: 0 <= i < |arcs| ==> StartWeight(arcs[i].1) == Zero
    ensures |r| == |arcs|
    ensures forall i :: 0 <= i < |r| ==> r[i] == (arcs[i].0, Predivide(arcs[i].1, w))
  {
    if arcs == [] then [] else [(arcs[0].0, Predivide(arcs[0].1, w))] + PredivideArcs(arcs[1..], w)
  }

  /**
   * normaliseArcs: the sum of the start weight and the arcs' weights, and the
   * start weight and arcs divided by it; unchanged, with one, when the sum is one.
   */
  function NormaliseArcs(start: Weight, arcs: seq<(Key, Automaton)>): (r: (Weight, Weight, seq<(Key, Automaton)>))
  {
    var sum := SumFrom(start, arcs);
    if sum == One then (One, start, arcs)
    else (sum, LeftDivide(start, sum), PredivideArcs(arcs, sum))
  }

  /** makeAutomaton: normalise, intern the state, and carry the normalisation as the start weight. */
  function MakeAutomaton(finalWeight: Weight, arcs: seq<(Key, Automaton)>): Automaton
  {
    var n := NormaliseArcs(finalWeight, arcs);
    MakeShared(n.0, Some(State(n.1, n.2)))
  }

  /**
   * union_: a null argument gives the other one, equal states add their start
   * weights, and anything else goes through memoisedUnion.
   */
  function Union(left: Automaton, right: Automaton): Automaton
    decreases Size(left) + Size(right), 4
  {
    if IsNull(left) then right
    else if IsNull(right) then left
    else if left.state == right.state then MakeShared(Plus(left.startWeight, right.startWeight), Some(left.state))
    else MemoisedUnion(left, right)
  }

  /**
   * memoisedUnion: divide both start weights by their sum, compute the union
   * of the normalised arguments, and multiply the sum back in.  The memo only
   * caches this result; its bookkeeping is in module StateMemo.
   */
  function MemoisedUnion(left: Automaton, right: Automaton): Automaton
    requires !IsNull(left) && !IsNull(right)
    decreases Size(left) + Size(right), 3
  {
    var normalisation := Plus(left.startWeight, right.startWeight);
    var l := LeftDivide(left.startWeight, normalisation);
    var r := LeftDivide(right.startWeight, normalisation);
    SizeOfShared(left.startWeight, left.state);
    SizeOfShared(right.startWeight, right.state);
    Premultiply(ComputeUnion(l, left.state.finalWeight, left.state.arcs, r, right.state.finalWeight, right.state.arcs),
      normalisation)
  }

  /**
   * computeUnion: when one of the pre-weights is one, add the other automaton
   * to its arcs; otherwise merge the arcs, each weighted by its side's
   * pre-weight, and give the final weight lp lf + rp rf.
   */
  function ComputeUnion(leftPre: Weight, leftFinal: Weight, leftArcs: seq<(Key, Automaton)>,
    rightPre: Weight, rightFinal: Weight, rightArcs: seq<(Key, Automaton)>): Automaton
    decreases ListSize(leftArcs) + ListSize(rightArcs) + 2, 2
  {
    if leftPre == One then AddAutomaton(leftFinal, leftArcs, rightPre, rightFinal, rightArcs)
    else if rightPre == One then AddAutomaton(rightFinal, rightArcs, leftPre, leftFinal, leftArcs)
    else
      MakeAutomaton(Plus(Times(leftPre, leftFinal), Times(rightPre, rightFinal)),
        MergeArcs(Scaled(leftPre, leftArcs), Scaled(rightPre, rightArcs)))
  }

  /**
   * addAutomaton: add the right arcs, weighted by rightPre, to arcs (a key
   * already present gets the union of both), with final weight
   * leftFinal + rightPre rightFinal.
   */
  function AddAutomaton(leftFinal: Weight, arcs: seq<(Key, Automaton)>,
    rightPre: Weight, rightFinal: Weight, rightArcs: seq<(Key, Automaton)>): Automaton
    decreases ListSize(arcs) + ListSize(rightArcs) + 2, 1
  {
    MakeAutomaton(Plus(leftFinal, Times(rightPre, rightFinal)), MergeArcs(arcs, Scaled(rightPre, rightArcs)))
  }

  /** Merge two key-ordered arc lists; a key on both sides gets the union of its two automata. */
  function MergeArcs(xs: seq<(Key, Automaton)>, ys: seq<(Key, Automaton)>): seq<(Key, Automaton)>
    decreases ListSize(xs) + ListSize(ys) + 2, 0
  {
    if xs == [] then ys
    else if ys == [] then xs
    else
      ListSizeCons(xs);
      ListSizeCons(ys);
      if xs[0].0 < ys[0].0 then [xs[0]] + MergeArcs(xs[1..], ys)
      else if ys[0].0 < xs[0].0 then [ys[0]] + MergeArcs(xs, ys[1..])
      else [(xs[0].0, Union(xs[0].1, ys[0].1))] + MergeArcs(xs[1..], ys[1..])
  }

  /**
   * concatenate: null if either side is null; a left side without arcs
   * becomes the right state with weight ls lf rs; otherwise each left arc is
   * concatenated with the right automaton, and the right automaton, weighted
   * by lf rs, is added for the paths that end in the left state.
   */
  function Concatenate(left: Automaton, right: Automaton): Automaton
    decreases left, 1
  {
    if IsNull(left) || IsNull(right) then Null
    else
      var leftEmptyStartWeight := Times(left.state.finalWeight, right.startWeight);
      if left.state.arcs == [] then
        MakeShared(Times(left.startWeight, leftEmptyStartWeight), Some(right.state))
      else
        var newArcs := ConcatenateArcs(left.state, 0, right);
        if leftEmptyStartWeight != Zero then
          Premultiply(AddAutomaton(Zero, newArcs, leftEmptyStartWeight,
            right.state.finalWeight, right.state.arcs), left.startWeight)
        else
          Premultiply(MakeAutomaton(Zero, newArcs), left.startWeight)
  }

  /** Each arc of s from index i on, with its automaton concatenated with right. */
  function ConcatenateArcs(s: State, i: nat, right: Automaton): (r: seq<(Key, Automaton)>)
    requires i <= |s.arcs|
    ensures |r| == |s.arcs| - i
    ensures forall j :: 0 <= j < |r| ==> r[j] == (s.arcs[i + j].0, Concatenate(s.arcs[i + j].1, right))
    decreases s, |s.arcs| - i
  {
    if i == |s.arcs| then [] else [(s.arcs[i].0, Concatenate(s.arcs[i].1, right))] + ConcatenateArcs(s, i + 1, right)
  }

  // The meaning of an automaton: the weight it gives each key sequence.

  /** The automaton on the arc with key k, or null when there is no such arc. */
  function ArcAt(arcs: seq<(Key, Automaton)>, k: Key): Automaton
  {
    if arcs == [] then Null else if arcs[0].0 == k then arcs[0].1 else ArcAt(arcs[1..], k)
  }

  /** The weight of the key sequence ks: the start weight times the weight from the state. */
  function WeightOf(a: Automaton, ks: seq<Key>): Weight
    decreases |ks|, 1
  {
    match a
    case Null => Zero
    case Shared(w, s) => Times(w, StateWeight(s, ks))
  }

  /** The weight of ks from state s: its final weight for the empty sequence, else through the arc for ks[0]. */
  function StateWeight(s: State, ks: seq<Key>): Weight
    decreases |ks|, 0
  {
    if ks == [] then s.finalWeight else WeightOf(ArcAt(s.arcs, ks[0]), ks[1..])
  }

  predicate KeysIncreasing(arcs: seq<(Key, Automaton)>)
  {
    forall i, j :: 0 <= i < j < |arcs| ==> arcs[i].0 < arcs[j].0
  }

  /**
   * The invariant of the class: a non-null automaton has a non-zero start
   * weight and a well-formed state.  A state has one arc per key, in key
   * order, to non-null automata, and is normalised: its final weight plus
   * its arcs' start weights is one.
   */
  ghost predicate WellFormed(a: Automaton)
    decreases a, 1
  {
    match a
    case Null => true
    case Shared(w, s) => w != Zero && StateWellFormed(s)
  }

  ghost predicate StateWellFormed(s: State)
    decreases s, 0
  {
    && KeysIncreasing(s.arcs)
    && (forall i :: 0 <= i < |s.arcs| ==> s.arcs[i].1.Shared? && WellFormed(s.arcs[i].1))
    && Normalised(s)
  }

  predicate Normalised(s: State)
  {
    SumFrom(s.finalWeight, s.arcs) == One
  }

  ghost predicate ArcsWellFormed(arcs: seq<(Key, Automaton)>)
  {
    KeysIncreasing(arcs) && forall i :: 0 <= i < |arcs| ==> arcs[i].1.Shared? && WellFormed(arcs[i].1)
  }

  lemma {:induction false} ArcAtIndex(arcs: seq<(Key, Automaton)>, i: nat)
    requires KeysIncreasing(arcs) && i < |arcs|
    ensures ArcAt(arcs, arcs[i].0) == arcs[i].1
  {
    if i > 0 {
      ArcAtIndex(arcs[1..], i - 1);
    }
  }

  lemma {:induction false} ArcAtAbsent(arcs: seq<(Key, Automaton)>, k: Key)
    requires forall i :: 0 <= i < |arcs| ==> arcs[i].0 != k
    ensures ArcAt(arcs, k) == Null
  {
    if arcs != [] {
      ArcAtAbsent(arcs[1..], k);
    }
  }

  /** The arc looked up is null or one of the arcs with that key. */
  lemma {:induction false} ArcAtFound(arcs: seq<(Key, Automaton)>, k: Key) returns (i: int)
    ensures i == -1 ==> ArcAt(arcs, k) == Null && forall j :: 0 <= j < |arcs| ==> arcs[j].0 != k
    ensures i != -1 ==> 0 <= i < |arcs| && arcs[i].0 == k && ArcAt(arcs, k) == arcs[i].1
  {
    if arcs == [] {
      i := -1;
    } else if arcs[0].0 == k {
      i := 0;
    } else {
      i := ArcAtFound(arcs[1..], k);
      if i != -1 {
        i := i + 1;
      }
    }
  }

  lemma PreMeaning(w: Weight, a: Automaton, ks: seq<Key>)
    ensures WeightOf(Pre(w, a), ks) == Times(w, WeightOf(a, ks))
    ensures WellFormed(a) ==> WellFormed(Pre(w, a))
  {
    if a.Shared? {
      TimesAssociates(w, a.startWeight, StateWeight(a.state, ks));
    }
  }

  lemma PremultiplyMeaning(a: Automaton, w: Weight, ks: seq<Key>)
    ensures WeightOf(Premultiply(a, w), ks) == Times(w, WeightOf(a, ks))
    ensures WellFormed(a) && w != Zero ==> WellFormed(Premultiply(a, w))
  {
    if a.Shared? {
      TimesAssociates(w, a.startWeight, StateWeight(a.state, ks));
    }
  }

  lemma PredivideMeaning(a: Automaton, w: Weight, ks: seq<Key>)
    requires w != Zero
    ensures Times(w, WeightOf(Predivide(a, w), ks)) == WeightOf(a, ks)
    ensures WellFormed(a) ==> WellFormed(Predivide(a, w))
  {
    if a.Shared? {
      TimesAssociates(w, LeftDivide(a.startWeight, w), StateWeight(a.state, ks));
    }
  }

  lemma {:induction false} ArcAtScaled(w: Weight, arcs: seq<(Key, Automaton)>, k: Key)
    ensures ArcAt(Scaled(w, arcs), k) == Pre(w, ArcAt(arcs, k))
  {
    if arcs != [] {
      assert Scaled(w, arcs)[1..] == Scaled(w, arcs[1..]);
      ArcAtScaled(w, arcs[1..], k);
    }
  }

  lemma {:induction false} ArcAtPredivided(arcs: seq<(Key, Automaton)>, w: Weight, k: Key)
    requires w != Zero
    ensures ArcAt(PredivideArcs(arcs, w), k) == Predivide(ArcAt(arcs, k), w)
  {
    if arcs != [] {
      assert PredivideArcs(arcs, w)[1..] == PredivideArcs(arcs[1..], w);
      ArcAtPredivided(arcs[1..], w, k);
    }
  }

  /** Dividing every term by n divides the sum by n. */
  lemma {:induction false} SumDivided(start: Weight, arcs: seq<(Key, Automaton)>, n: Weight)
    requires n != Zero
    ensures SumFrom(LeftDivide(start, n), PredivideArcs(arcs, n)) == LeftDivide(SumFrom(start, arcs), n)
    decreases |arcs|
  {
    if arcs != [] {
      var a := arcs[0].1;
      assert StartWeight(Predivide(a, n)) == LeftDivide(StartWeight(a), n);
      DivideDistributes(start, StartWeight(a), n);
      assert PredivideArcs(arcs, n)[1..] == PredivideArcs(arcs[1..], n);
      SumDivided(Plus(start, StartWeight(a)), arcs[1..], n);
    }
  }

  lemma ScaledWellFormed(w: Weight, arcs: seq<(Key, Automaton)>)
    requires w != Zero && ArcsWellFormed(arcs)
    ensures ArcsWellFormed(Scaled(w, arcs))
  {
    forall i | 0 <= i < |arcs| ensures WellFormed(Scaled(w, arcs)[i].1) {
      PreMeaning(w, arcs[i].1, []);
    }
  }

  /**
   * makeAutomaton changes the representation, not the meaning: the automaton
   * gives every key sequence the weight the unnormalised state gives it, and
   * is well formed when the arcs are.
   */
  lemma MakeAutomatonMeaning(finalWeight: Weight, arcs: seq<(Key, Automaton)>)
    ensures forall ks :: WeightOf(MakeAutomaton(finalWeight, arcs), ks) == StateWeight(State(finalWeight, arcs), ks)
    ensures ArcsWellFormed(arcs) ==> WellFormed(MakeAutomaton(finalWeight, arcs))
    ensures ArcsWellFormed(arcs) && (arcs != [] || finalWeight != Zero) ==> MakeAutomaton(finalWeight, arcs).Shared?
  {
    var sum := SumFrom(finalWeight, arcs);
    var a := MakeAutomaton(finalWeight, arcs);
    forall ks ensures WeightOf(a, ks) == StateWeight(State(finalWeight, arcs), ks) {
      if ks != [] {
        var i := ArcAtFound(arcs, ks[0]);
        if sum != One && sum != Zero {
          ArcAtPredivided(arcs, sum, ks[0]);
          PredivideMeaning(ArcAt(arcs, ks[0]), sum, ks[1..]);
        }
      }
    }
    if ArcsWellFormed(arcs) && sum != One && sum != Zero {
      var divided := PredivideArcs(arcs, sum);
      forall i | 0 <= i < |divided| ensures WellFormed(divided[i].1) {
        PredivideMeaning(arcs[i].1, sum, []);
      }
      SumDivided(finalWeight, arcs, sum);
      DivideCancels(sum, sum);
    }
    if ArcsWellFormed(arcs) && arcs != [] {
      assert StartWeight(arcs[0].1) != Zero;
    }
  }

  /** The keys of an arc list. */
  function Keys(arcs: seq<(Key, Automaton)>): set<Key>
  {
    set i | 0 <= i < |arcs| :: arcs[i].0
  }

  lemma KeysCons(a: (Key, Automaton), rest: seq<(Key, Automaton)>)
    ensures Keys([a] + rest) == {a.0} + Keys(rest)
  {
    var xs := [a] + rest;
    forall c | c in Keys(xs) ensures c in {a.0} + Keys(rest) {
      var i :| 0 <= i < |xs| && xs[i].0 == c;
      if i > 0 {
        assert rest[i - 1].0 == c;
      }
    }
    forall c | c in Keys(rest) ensures c in Keys(xs) {
      var i :| 0 <= i < |rest| && rest[i].0 == c;
      assert xs[i + 1].0 == c;
    }
    assert xs[0].0 == a.0;
  }

  /** An arc list in key order is its head followed by a list in key order whose keys all come after the head's. */
  lemma IncreasingCons(a: (Key, Automaton), rest: seq<(Key, Automaton)>)
    ensures ArcsWellFormed([a] + rest) <==>
      a.1.Shared? && WellFormed(a.1) && ArcsWellFormed(rest) && forall c :: c in Keys(rest) ==> a.0 < c
  {
    if a.1.Shared? && WellFormed(a.1) && ArcsWellFormed(rest) && forall c :: c in Keys(rest) ==> a.0 < c {
      ConsWellFormed(a, rest);
    }
    if ArcsWellFormed([a] + rest) {
      ConsParts(a, rest);
    }
  }

  lemma ConsWellFormed(a: (Key, Automaton), rest: seq<(Key, Automaton)>)
    requires a.1.Shared? && WellFormed(a.1) && ArcsWellFormed(rest)
    requires forall c :: c in Keys(rest) ==> a.0 < c
    ensures ArcsWellFormed([a] + rest)
  {
    var xs := [a] + rest;
    assert forall i :: 1 <= i < |xs| ==> xs[i] == rest[i - 1];
    forall i, j | 0 <= i < j < |xs| ensures xs[i].0 < xs[j].0 {
      if i == 0 {
        assert rest[j - 1].0 in Keys(rest);
      }
    }
  }

  lemma ConsParts(a: (Key, Automaton), rest: seq<(Key, Automaton)>)
    requires ArcsWellFormed([a] + rest)
    ensures a.1.Shared? && WellFormed(a.1) && ArcsWellFormed(rest)
    ensures forall c :: c in Keys(rest) ==> a.0 < c
  {
    var xs := [a] + rest;
    assert xs[0] == a;
    assert forall i :: 0 <= i < |rest| ==> rest[i] == xs[i + 1];
    forall c | c in Keys(rest) ensures a.0 < c {
      var i :| 0 <= i < |rest| && rest[i].0 == c;
      assert xs[0].0 < xs[i + 1].0 == c;
    }
  }

  lemma TailWellFormed(xs: seq<(Key, Automaton)>)
    requires xs != [] && ArcsWellFormed(xs)
    ensures xs[0].1.Shared? && WellFormed(xs[0].1) && ArcsWellFormed(xs[1..])
    ensures forall c :: c in Keys(xs[1..]) ==> xs[0].0 < c
    ensures Keys(xs) == {xs[0].0} + Keys(xs[1..])
  {
    assert xs == [xs[0]] + xs[1..];
    IncreasingCons(xs[0], xs[1..]);
    KeysCons(xs[0], xs[1..]);
  }

  /** A well-formed non-null automaton gives some key sequence a non-zero weight. */
  lemma {:induction false} Witness(a: Automaton) returns (ks: seq<Key>)
    requires WellFormed(a) && a.Shared?
    ensures WeightOf(a, ks) != Zero
    decreases a
  {
    var s := a.state;
    if s.arcs == [] {
      ks := [];
    } else {
      ArcAtIndex(s.arcs, 0);
      var rest := Witness(s.arcs[0].1);
      ks := [s.arcs[0].0] + rest;
      assert ks[1..] == rest;
    }
  }

  /**
   * union_ adds weights: the union gives every key sequence the sum of the
   * weights the two arguments give it, and is well formed when they are.
   */
  lemma UnionProperties(left: Automaton, right: Automaton)
    requires WellFormed(left) && WellFormed(right)
    ensures WellFormed(Union(left, right))
    ensures forall ks :: WeightOf(Union(left, right), ks) == Plus(WeightOf(left, ks), WeightOf(right, ks))
    ensures left.Shared? || right.Shared? ==> Union(left, right).Shared?
    decreases Size(left) + Size(right), 4, 0
  {
    var u := Union(left, right);
    if IsNull(left) || IsNull(right) {
    } else if left.state == right.state {
      forall ks ensures WeightOf(u, ks) == Plus(WeightOf(left, ks), WeightOf(right, ks)) {
        Distributes(left.startWeight, right.startWeight, StateWeight(left.state, ks));
      }
    } else {
      var n := Plus(left.startWeight, right.startWeight);
      var l := LeftDivide(left.startWeight, n);
      var r := LeftDivide(right.startWeight, n);
      SizeOfShared(left.startWeight, left.state);
      SizeOfShared(right.startWeight, right.state);
      var lf, la := left.state.finalWeight, left.state.arcs;
      var rf, ra := right.state.finalWeight, right.state.arcs;
      ComputeUnionProperties(l, lf, la, r, rf, ra);
      var c := ComputeUnion(l, lf, la, r, rf, ra);
      assert u == MemoisedUnion(left, right) == Premultiply(c, n);
      forall ks ensures WeightOf(u, ks) == Plus(WeightOf(left, ks), WeightOf(right, ks)) {
        var sl, sr := StateWeight(State(lf, la), ks), StateWeight(State(rf, ra), ks);
        PremultiplyMeaning(c, n, ks);
        Distributes(n, Times(l, sl), Times(r, sr));
        TimesAssociates(n, l, sl);
        TimesAssociates(n, r, sr);
      }
      PremultiplyMeaning(c, n, []);
      var ks := Witness(left);
      assert WeightOf(u, ks) != Zero;
    }
  }

  /**
   * computeUnion gives every key sequence lp times the left state's weight
   * plus rp times the right state's weight.
   */
  lemma ComputeUnionProperties(leftPre: Weight, leftFinal: Weight, leftArcs: seq<(Key, Automaton)>,
    rightPre: Weight, rightFinal: Weight, rightArcs: seq<(Key, Automaton)>)
    requires leftPre != Zero && rightPre != Zero
    requires ArcsWellFormed(leftArcs) && ArcsWellFormed(rightArcs)
    ensures WellFormed(ComputeUnion(leftPre, leftFinal, leftArcs, rightPre, rightFinal, rightArcs))
    ensures forall ks ::
              WeightOf(ComputeUnion(leftPre, leftFinal, leftArcs, rightPre, rightFinal, rightArcs), ks) ==
              Plus(Times(leftPre, StateWeight(State(leftFinal, leftArcs), ks)),
                Times(rightPre, StateWeight(State(rightFinal, rightArcs), ks)))
    decreases ListSize(leftArcs) + ListSize(rightArcs) + 2, 2, 0
  {
    var c := ComputeUnion(leftPre, leftFinal, leftArcs, rightPre, rightFinal, rightArcs);
    if leftPre == One {
      AddAutomatonProperties(leftFinal, leftArcs, rightPre, rightFinal, rightArcs);
    } else if rightPre == One {
      AddAutomatonProperties(rightFinal, rightArcs, leftPre, leftFinal, leftArcs);
      forall ks ensures WeightOf(c, ks) == Plus(Times(leftPre, StateWeight(State(leftFinal, leftArcs), ks)),
        Times(rightPre, StateWeight(State(rightFinal, rightArcs), ks)))
      {
        PlusCommutes(Times(leftPre, StateWeight(State(leftFinal, leftArcs), ks)),
          StateWeight(State(rightFinal, rightArcs), ks));
      }
    } else {
      ScaledMergeProperties(leftPre, leftFinal, leftArcs, rightPre, rightFinal, rightArcs);
    }
  }

  /** The general case of computeUnion: merging the arcs, each side weighted by its pre-weight. */
  lemma ScaledMergeProperties(leftPre: Weight, leftFinal: Weight, leftArcs: seq<(Key, Automaton)>,
    rightPre: Weight, rightFinal: Weight, rightArcs: seq<(Key, Automaton)>)
    requires leftPre != Zero && rightPre != Zero
    requires ArcsWellFormed(leftArcs) && ArcsWellFormed(rightArcs)
    ensures var c := MakeAutomaton(Plus(Times(leftPre, leftFinal), Times(rightPre, rightFinal)),
      MergeArcs(Scaled(leftPre, leftArcs), Scaled(rightPre, rightArcs)));
      && WellFormed(c)
      && forall ks :: WeightOf(c, ks) == Plus(Times(leftPre, StateWeight(State(leftFinal, leftArcs), ks)),
           Times(rightPre, StateWeight(State(rightFinal, rightArcs), ks)))
    decreases ListSize(leftArcs) + ListSize(rightArcs) + 2, 1, 1
  {
    var xs, ys := Scaled(leftPre, leftArcs), Scaled(rightPre, rightArcs);
    var f := Plus(Times(leftPre, leftFinal), Times(rightPre, rightFinal));
    var c := MakeAutomaton(f, MergeArcs(xs, ys));
    ScaledWellFormed(leftPre, leftArcs);
    ScaledWellFormed(rightPre, rightArcs);
    MergeProperties(xs, ys);
    MakeAutomatonMeaning(f, MergeArcs(xs, ys));
    forall ks | ks != [] ensures WeightOf(c, ks) == Plus(Times(leftPre, StateWeight(State(leftFinal, leftArcs), ks)),
      Times(rightPre, StateWeight(State(rightFinal, rightArcs), ks)))
    {
      ArcAtScaled(leftPre, leftArcs, ks[0]);
      ArcAtScaled(rightPre, rightArcs, ks[0]);
      PreMeaning(leftPre, ArcAt(leftArcs, ks[0]), ks[1..]);
      PreMeaning(rightPre, ArcAt(rightArcs, ks[0]), ks[1..]);
    }
  }

  /**
   * addAutomaton gives every key sequence the weight from its own final
   * weight and arcs plus rp times the right state's weight.
   */
  lemma AddAutomatonProperties(leftFinal: Weight, arcs: seq<(Key, Automaton)>,
    rightPre: Weight, rightFinal: Weight, rightArcs: seq<(Key, Automaton)>)
    requires rightPre != Zero
    requires ArcsWellFormed(arcs) && ArcsWellFormed(rightArcs)
    ensures WellFormed(AddAutomaton(leftFinal, arcs, rightPre, rightFinal, rightArcs))
    ensures arcs != [] ==> AddAutomaton(leftFinal, arcs, rightPre, rightFinal, rightArcs).Shared?
    ensures forall ks ::
              WeightOf(AddAutomaton(leftFinal, arcs, rightPre, rightFinal, rightArcs), ks) ==
              Plus(StateWeight(State(leftFinal, arcs), ks), Times(rightPre, StateWeight(State(rightFinal, rightArcs), ks)))
    decreases ListSize(arcs) + ListSize(rightArcs) + 2, 1, 0
  {
    var c := AddAutomaton(leftFinal, arcs, rightPre, rightFinal, rightArcs);
    var ys := Scaled(rightPre, rightArcs);
    ScaledWellFormed(rightPre, rightArcs);
    MergeProperties(arcs, ys);
    MakeAutomatonMeaning(Plus(leftFinal, Times(rightPre, rightFinal)), MergeArcs(arcs, ys));
    if arcs != [] {
      assert arcs[0].0 in Keys(MergeArcs(arcs, ys));
    }
    forall ks | ks != [] ensures WeightOf(c, ks) ==
      Plus(StateWeight(State(leftFinal, arcs), ks), Times(rightPre, StateWeight(State(rightFinal, rightArcs), ks)))
    {
      ArcAtScaled(rightPre, rightArcs, ks[0]);
      PreMeaning(rightPre, ArcAt(rightArcs, ks[0]), ks[1..]);
    }
  }

  /**
   * Merging keeps the keys of both lists, in order, and the automaton on each
   * key gives the sum of the weights of the automata on that key.
   */
  lemma {:induction false} MergeProperties(xs: seq<(Key, Automaton)>, ys: seq<(Key, Automaton)>)
    requires ArcsWellFormed(xs) && ArcsWellFormed(ys)
    ensures ArcsWellFormed(MergeArcs(xs, ys))
    ensures Keys(MergeArcs(xs, ys)) == Keys(xs) + Keys(ys)
    ensures forall k, ks ::
              WeightOf(ArcAt(MergeArcs(xs, ys), k), ks) == Plus(WeightOf(ArcAt(xs, k), ks), WeightOf(ArcAt(ys, k), ks))
    decreases ListSize(xs) + ListSize(ys) + 2, 0, 1
  {
    if xs != [] && ys != [] {
      if xs[0].0 < ys[0].0 {
        MergeFirstOnLeft(xs, ys);
      } else if ys[0].0 < xs[0].0 {
        MergeFirstOnRight(xs, ys);
      } else {
        MergeFirstOnBothSides(xs, ys);
      }
    }
  }

  /** What merging promises, as one predicate, for the steps of the proof. */
  ghost predicate MergedCorrectly(xs: seq<(Key, Automaton)>, ys: seq<(Key, Automaton)>, m: seq<(Key, Automaton)>)
  {
    && ArcsWellFormed(m)
    && Keys(m) == Keys(xs) + Keys(ys)
    && forall k, ks :: WeightOf(ArcAt(m, k), ks) == Plus(WeightOf(ArcAt(xs, k), ks), WeightOf(ArcAt(ys, k), ks))
  }

  /** The first key is only in xs: it comes first, and the rest is merged. */
  lemma {:induction false} MergeFirstOnLeft(xs: seq<(Key, Automaton)>, ys: seq<(Key, Automaton)>)
    requires ArcsWellFormed(xs) && ArcsWellFormed(ys)
    requires xs != [] && ys != [] && xs[0].0 < ys[0].0
    ensures MergedCorrectly(xs, ys, [xs[0]] + MergeArcs(xs[1..], ys))
    decreases ListSize(xs) + ListSize(ys) + 2, 0, 0
  {
    ListSizeCons(xs);
    TailWellFormed(xs);
    TailWellFormed(ys);
    var x := xs[0];
    var m, rest := [x] + MergeArcs(xs[1..], ys), MergeArcs(xs[1..], ys);
    MergeProperties(xs[1..], ys);
    KeysCons(x, rest);
    IncreasingCons(x, rest);
    LeftOnlyWeights(xs, ys, rest);
  }

  /** The first key is only in ys: it comes first, and the rest is merged. */
  lemma {:induction false} MergeFirstOnRight(xs: seq<(Key, Automaton)>, ys: seq<(Key, Automaton)>)
    requires ArcsWellFormed(xs) && ArcsWellFormed(ys)
    requires xs != [] && ys != [] && ys[0].0 < xs[0].0
    ensures MergedCorrectly(xs, ys, [ys[0]] + MergeArcs(xs, ys[1..]))
    decreases ListSize(xs) + ListSize(ys) + 2, 0, 0
  {
    ListSizeCons(ys);
    TailWellFormed(xs);
    TailWellFormed(ys);
    var y := ys[0];
    var m, rest := [y] + MergeArcs(xs, ys[1..]), MergeArcs(xs, ys[1..]);
    MergeProperties(xs, ys[1..]);
    KeysCons(y, rest);
    IncreasingCons(y, rest);
    RightOnlyWeights(xs, ys, rest);
  }

  /** The weights after a key that only xs has: that key weighs as in xs, the rest as merged. */
  lemma LeftOnlyWeights(xs: seq<(Key, Automaton)>, ys: seq<(Key, Automaton)>, rest: seq<(Key, Automaton)>)
    requires xs != [] && ys != [] && xs[0].0 < ys[0].0 && ArcsWellFormed(ys)
    requires forall k, ks :: WeightOf(ArcAt(rest, k), ks) == Plus(WeightOf(ArcAt(xs[1..], k), ks), WeightOf(ArcAt(ys, k), ks))
    ensures forall k, ks ::
      WeightOf(ArcAt([xs[0]] + rest, k), ks) == Plus(WeightOf(ArcAt(xs, k), ks), WeightOf(ArcAt(ys, k), ks))
  {
    var m := [xs[0]] + rest;
    TailWellFormed(ys);
    forall k, ks ensures WeightOf(ArcAt(m, k), ks) == Plus(WeightOf(ArcAt(xs, k), ks), WeightOf(ArcAt(ys, k), ks)) {
      if k == xs[0].0 {
        ArcAtAbsent(ys, k);
      } else {
        assert m[1..] == rest;
      }
    }
  }

  /** The weights after a key that only ys has: that key weighs as in ys, the rest as merged. */
  lemma RightOnlyWeights(xs: seq<(Key, Automaton)>, ys: seq<(Key, Automaton)>, rest: seq<(Key, Automaton)>)
    requires xs != [] && ys != [] && ys[0].0 < xs[0].0 && ArcsWellFormed(xs)
    requires forall k, ks :: WeightOf(ArcAt(rest, k), ks) == Plus(WeightOf(ArcAt(xs, k), ks), WeightOf(ArcAt(ys[1..], k), ks))
    ensures forall k, ks ::
      WeightOf(ArcAt([ys[0]] + rest, k), ks) == Plus(WeightOf(ArcAt(xs, k), ks), WeightOf(ArcAt(ys, k), ks))
  {
    var m := [ys[0]] + rest;
    TailWellFormed(xs);
    forall k, ks ensures WeightOf(ArcAt(m, k), ks) == Plus(WeightOf(ArcAt(xs, k), ks), WeightOf(ArcAt(ys, k), ks)) {
      if k == ys[0].0 {
        ArcAtAbsent(xs, k);
      } else {
        assert m[1..] == rest;
      }
    }
  }

  /** The first key is on both sides: it gets the union of both automata. */
  lemma {:induction false} MergeFirstOnBothSides(xs: seq<(Key, Automaton)>, ys: seq<(Key, Automaton)>)
    requires ArcsWellFormed(xs) && ArcsWellFormed(ys)
    requires xs != [] && ys != [] && xs[0].0 == ys[0].0
    ensures MergedCorrectly(xs, ys, MergeArcs(xs, ys))
    decreases ListSize(xs) + ListSize(ys) + 2, 0, 0
  {
    ListSizeCons(xs);
    ListSizeCons(ys);
    TailWellFormed(xs);
    TailWellFormed(ys);
    var x, y := xs[0], ys[0];
    var u := Union(x.1, y.1);
    var rest := MergeArcs(xs[1..], ys[1..]);
    assert MergeArcs(xs, ys) == [(x.0, u)] + rest;
    UnionProperties(x.1, y.1);
    MergeProperties(xs[1..], ys[1..]);
    KeysCons((x.0, u), rest);
    IncreasingCons((x.0, u), rest);
  }

  /**
   * The reference meaning of concatenation: the sum, over the first n ways of
   * splitting ks into a prefix and a suffix, of the weight left gives the
   * prefix times the weight right gives the suffix.
   */
  function SplitSum(left: Automaton, right: Automaton, ks: seq<Key>, n: nat): Weight
    requires n <= |ks| + 1
  {
    if n == 0 then Zero
    else Plus(SplitSum(left, right, ks, n - 1), Times(WeightOf(left, ks[..n - 1]), WeightOf(right, ks[n - 1..])))
  }

  function ProductWeight(left: Automaton, right: Automaton, ks: seq<Key>): Weight
  {
    SplitSum(left, right, ks, |ks| + 1)
  }

  lemma {:induction false} SplitSumNull(left: Automaton, right: Automaton, ks: seq<Key>, n: nat)
    requires n <= |ks| + 1 && (left.Null? || right.Null?)
    ensures SplitSum(left, right, ks, n) == Zero
  {
    if n > 0 {
      SplitSumNull(left, right, ks, n - 1);
    }
  }

  /**
   * Splitting after the first key: the split with an empty prefix, plus the
   * start weight times the splits of the rest through the arc for ks[0].
   */
  lemma {:induction false} SplitShift(w: Weight, s: State, right: Automaton, ks: seq<Key>, n: nat)
    requires ks != [] && 1 <= n <= |ks| + 1
    ensures SplitSum(Shared(w, s), right, ks, n) ==
      Plus(Times(Times(w, s.finalWeight), WeightOf(right, ks)),
        Times(w, SplitSum(ArcAt(s.arcs, ks[0]), right, ks[1..], n - 1)))
  {
    var l, a := Shared(w, s), ArcAt(s.arcs, ks[0]);
    var first := Times(Times(w, s.finalWeight), WeightOf(right, ks));
    if n == 1 {
      assert ks[..0] == [] && ks[0..] == ks;
      assert WeightOf(l, []) == Times(w, s.finalWeight);
      assert SplitSum(a, right, ks[1..], 0) == Zero;
      assert SplitSum(l, right, ks, 1) == Plus(Zero, first);
    } else {
      SplitShift(w, s, right, ks, n - 1);
      var rest := ks[1..];
      assert ks[..n - 1][1..] == rest[..n - 2];
      assert ks[n - 1..] == rest[n - 2..];
      var before := SplitSum(a, right, rest, n - 2);
      var step := Times(WeightOf(a, rest[..n - 2]), WeightOf(right, rest[n - 2..]));
      assert WeightOf(l, ks[..n - 1]) == Times(w, WeightOf(a, rest[..n - 2]));
      TimesAssociates(w, WeightOf(a, rest[..n - 2]), WeightOf(right, rest[n - 2..]));
      PlusAssociates(first, Times(w, before), Times(w, step));
      Distributes(w, before, step);
    }
  }

  lemma {:induction false} ArcAtConcatenated(s: State, i: nat, right: Automaton, k: Key)
    requires i <= |s.arcs|
    ensures ArcAt(ConcatenateArcs(s, i, right), k) == Concatenate(ArcAt(s.arcs[i..], k), right)
    decreases |s.arcs| - i
  {
    if i < |s.arcs| {
      assert s.arcs[i..][1..] == s.arcs[i + 1..];
      ArcAtConcatenated(s, i + 1, right, k);
    }
  }

  lemma {:induction false} ConcatenateWellFormed(left: Automaton, right: Automaton)
    requires WellFormed(left) && WellFormed(right)
    ensures WellFormed(Concatenate(left, right))
    ensures left.Shared? && right.Shared? ==> Concatenate(left, right).Shared?
    decreases left, 1
  {
    if !IsNull(left) && !IsNull(right) && left.state.arcs != [] {
      var ls, e := left.startWeight, Times(left.state.finalWeight, right.startWeight);
      var newArcs := ConcatenateArcs(left.state, 0, right);
      ConcatenatedArcsWellFormed(left, right);
      if e != Zero {
        AddAutomatonProperties(Zero, newArcs, e, right.state.finalWeight, right.state.arcs);
        PremultiplyMeaning(AddAutomaton(Zero, newArcs, e, right.state.finalWeight, right.state.arcs), ls, []);
      } else {
        MakeAutomatonMeaning(Zero, newArcs);
        PremultiplyMeaning(MakeAutomaton(Zero, newArcs), ls, []);
      }
    }
  }

  lemma {:induction false} ConcatenatedArcsWellFormed(left: Automaton, right: Automaton)
    requires WellFormed(left) && WellFormed(right) && left.Shared? && right.Shared?
    ensures ArcsWellFormed(ConcatenateArcs(left.state, 0, right))
    decreases left, 0
  {
    var arcs, newArcs := left.state.arcs, ConcatenateArcs(left.state, 0, right);
    forall j | 0 <= j < |arcs| ensures newArcs[j].1.Shared? && WellFormed(newArcs[j].1) {
      ConcatenateWellFormed(arcs[j].1, right);
    }
  }

  /** The weight through the concatenated arcs is the product through the left arcs. */
  lemma {:induction false} ThroughConcatenatedArcs(left: Automaton, right: Automaton, ks: seq<Key>)
    requires WellFormed(left) && WellFormed(right) && left.Shared? && ks != []
    ensures StateWeight(State(Zero, ConcatenateArcs(left.state, 0, right)), ks) ==
      ProductWeight(ArcAt(left.state.arcs, ks[0]), right, ks[1..])
    decreases left, 0
  {
    var arcs := left.state.arcs;
    assert arcs[0..] == arcs;
    ArcAtConcatenated(left.state, 0, right, ks[0]);
    var i := ArcAtFound(arcs, ks[0]);
    if i == -1 {
      SplitSumNull(Null, right, ks[1..], |ks[1..]| + 1);
    } else {
      ConcatenateWeight(arcs[i].1, right, ks[1..]);
    }
  }

  /**
   * concatenate multiplies: the result gives ks the sum over its splits of
   * the left weight of the prefix times the right weight of the suffix.
   */
  lemma {:induction false} ConcatenateWeight(left: Automaton, right: Automaton, ks: seq<Key>)
    requires WellFormed(left) && WellFormed(right)
    ensures WeightOf(Concatenate(left, right), ks) == ProductWeight(left, right, ks)
    decreases left, 1
  {
    var c := Concatenate(left, right);
    if IsNull(left) || IsNull(right) {
      SplitSumNull(left, right, ks, |ks| + 1);
    } else if ks == [] {
      ConcatenateEmptyWeight(left, right);
    } else {
      var ls, lf, arcs := left.startWeight, left.state.finalWeight, left.state.arcs;
      var rs, sr := right.startWeight, StateWeight(right.state, ks);
      var e := Times(lf, rs);
      SplitShift(ls, left.state, right, ks, |ks| + 1);
      TimesAssociates(ls, lf, Times(rs, sr));
      TimesAssociates(lf, rs, sr);
      if arcs == [] {
        SplitSumNull(Null, right, ks[1..], |ks|);
        TimesAssociates(ls, e, sr);
      } else {
        var newArcs := ConcatenateArcs(left.state, 0, right);
        var through := StateWeight(State(Zero, newArcs), ks);
        ThroughConcatenatedArcs(left, right, ks);
        ConcatenatedArcsWellFormed(left, right);
        if e != Zero {
          var added := AddAutomaton(Zero, newArcs, e, right.state.finalWeight, right.state.arcs);
          AddAutomatonProperties(Zero, newArcs, e, right.state.finalWeight, right.state.arcs);
          PremultiplyMeaning(added, ls, ks);
          PlusCommutes(through, Times(e, sr));
          Distributes(ls, Times(e, sr), through);
        } else {
          MakeAutomatonMeaning(Zero, newArcs);
          PremultiplyMeaning(MakeAutomaton(Zero, newArcs), ls, ks);
        }
      }
    }
  }

  /** The empty sequence: left's final weight times right's. */
  lemma ConcatenateEmptyWeight(left: Automaton, right: Automaton)
    requires WellFormed(left) && WellFormed(right) && !IsNull(left) && !IsNull(right)
    ensures WeightOf(Concatenate(left, right), []) == ProductWeight(left, right, [])
  {
    var ks: seq<Key> := [];
    var ls, lf, arcs := left.startWeight, left.state.finalWeight, left.state.arcs;
    var rs, rf := right.startWeight, right.state.finalWeight;
    var e := Times(lf, rs);
    assert ks[..0] == [] && ks[0..] == [];
    assert WeightOf(left, []) == Times(ls, lf) && WeightOf(right, []) == Times(rs, rf);
    assert SplitSum(left, right, ks, 1) == Plus(SplitSum(left, right, ks, 0), Times(WeightOf(left, []), WeightOf(right, [])));
    assert ProductWeight(left, right, []) == Times(Times(ls, lf), Times(rs, rf));
    TimesAssociates(ls, lf, Times(rs, rf));
    TimesAssociates(lf, rs, rf);
    if arcs != [] {
      var newArcs := ConcatenateArcs(left.state, 0, right);
      if e != Zero {
        var added := AddAutomaton(Zero, newArcs, e, rf, right.state.arcs);
        MakeAutomatonMeaning(Plus(Zero, Times(e, rf)), MergeArcs(newArcs, Scaled(e, right.state.arcs)));
        PremultiplyMeaning(added, ls, ks);
      } else {
        MakeAutomatonMeaning(Zero, newArcs);
        PremultiplyMeaning(MakeAutomaton(Zero, newArcs), ls, ks);
      }
    } else {
      TimesAssociates(ls, e, rf);
    }
  }

  // Joint minimality: a well-formed automaton is determined by its weights,
  // which is why comparing state pointers compares automata.

  /** The tropical sum is the least of its terms, and is one of them (-1 for the start weight). */
  lemma {:induction false} SumFromIsLeast(start: Weight, arcs: seq<(Key, Automaton)>) returns (i: int)
    ensures AtMost(SumFrom(start, arcs), start)
    ensures forall j :: 0 <= j < |arcs| ==> AtMost(SumFrom(start, arcs), StartWeight(arcs[j].1))
    ensures i == -1 ==> SumFrom(start, arcs) == start
    ensures i != -1 ==> 0 <= i < |arcs| && SumFrom(start, arcs) == StartWeight(arcs[i].1)
    decreases |arcs|
  {
    if arcs == [] {
      i := -1;
    } else {
      var first := Plus(start, StartWeight(arcs[0].1));
      var j := SumFromIsLeast(first, arcs[1..]);
      if j != -1 {
        i := j + 1;
      } else if first == start {
        i := -1;
      } else {
        i := 0;
      }
    }
  }

  /** From a well-formed state no key sequence weighs less than one. */
  lemma {:induction false} StateAtLeastOne(s: State, ks: seq<Key>)
    requires StateWellFormed(s)
    ensures AtMost(One, StateWeight(s, ks))
    decreases |ks|
  {
    var _ := SumFromIsLeast(s.finalWeight, s.arcs);
    if ks != [] {
      var i := ArcAtFound(s.arcs, ks[0]);
      if i != -1 {
        StateAtLeastOne(s.arcs[i].1.state, ks[1..]);
      }
    }
  }

  /** From a well-formed state some key sequence weighs exactly one. */
  lemma {:induction false} StateReachesOne(s: State) returns (ks: seq<Key>)
    requires StateWellFormed(s)
    ensures StateWeight(s, ks) == One
    decreases s
  {
    var i := SumFromIsLeast(s.finalWeight, s.arcs);
    if i == -1 {
      ks := [];
    } else {
      ArcAtIndex(s.arcs, i);
      var rest := StateReachesOne(s.arcs[i].1.state);
      ks := [s.arcs[i].0] + rest;
      assert ks[1..] == rest;
    }
  }

  /** The start weight of a well-formed automaton is the least weight it gives any key sequence. */
  lemma StartWeightIsLeast(a: Automaton) returns (ks: seq<Key>)
    requires WellFormed(a) && a.Shared?
    ensures forall ks' :: AtMost(a.startWeight, WeightOf(a, ks'))
    ensures WeightOf(a, ks) == a.startWeight
  {
    forall ks' ensures AtMost(a.startWeight, WeightOf(a, ks')) {
      StateAtLeastOne(a.state, ks');
    }
    ks := StateReachesOne(a.state);
  }

  lemma {:induction false} ArcAtSize(arcs: seq<(Key, Automaton)>, k: Key)
    ensures Size(ArcAt(arcs, k)) <= ListSize(arcs)
  {
    if arcs != [] {
      ListSizeCons(arcs);
      ArcAtSize(arcs[1..], k);
    }
  }

  lemma ArcAtWellFormed(arcs: seq<(Key, Automaton)>, k: Key)
    requires ArcsWellFormed(arcs)
    ensures WellFormed(ArcAt(arcs, k))
  {
    var _ := ArcAtFound(arcs, k);
  }

  lemma FirstArc(arcs: seq<(Key, Automaton)>)
    ensures arcs != [] ==> ArcAt(arcs, arcs[0].0) == arcs[0].1
  {
  }

  /** No arc of a list in key order has a key below its first. */
  lemma AbsentBelow(arcs: seq<(Key, Automaton)>, k: Key)
    ensures KeysIncreasing(arcs) && (arcs == [] || k < arcs[0].0) ==> ArcAt(arcs, k) == Null
  {
    if KeysIncreasing(arcs) && (arcs == [] || k < arcs[0].0) {
      ArcAtAbsent(arcs, k);
    }
  }

  /** Witness, stated for every automaton. */
  lemma SomeWeightNonZero(a: Automaton) returns (ks: seq<Key>)
    ensures WellFormed(a) && a.Shared? ==> WeightOf(a, ks) != Zero
  {
    ks := [];
    if WellFormed(a) && a.Shared? {
      ks := Witness(a);
    }
  }

  /** Two arc lists in key order without null arcs that agree on every key are equal. */
  lemma {:induction false} ArcListsEqual(xs: seq<(Key, Automaton)>, ys: seq<(Key, Automaton)>)
    requires ArcsWellFormed(xs) && ArcsWellFormed(ys)
    requires forall k :: ArcAt(xs, k) == ArcAt(ys, k)
    ensures xs == ys
    decreases |xs| + |ys|
  {
    if xs == [] && ys == [] {
    } else if xs == [] {
      FirstArc(ys);
      assert false;
    } else if ys == [] {
      FirstArc(xs);
      assert false;
    } else if xs[0].0 < ys[0].0 {
      FirstArc(xs);
      AbsentBelow(ys, xs[0].0);
      assert false;
    } else if ys[0].0 < xs[0].0 {
      FirstArc(ys);
      AbsentBelow(xs, ys[0].0);
      assert false;
    } else {
      TailWellFormed(xs);
      TailWellFormed(ys);
      assert ArcAt(xs, xs[0].0) == ArcAt(ys, xs[0].0);
      forall k ensures ArcAt(xs[1..], k) == ArcAt(ys[1..], k) {
        if k == xs[0].0 {
          assert forall i :: 1 <= i < |xs| ==> xs[0].0 < xs[i].0;
          assert forall i :: 1 <= i < |ys| ==> ys[0].0 < ys[i].0;
          ArcAtAbsent(xs[1..], k);
          ArcAtAbsent(ys[1..], k);
        } else {
          assert ArcAt(xs, k) == ArcAt(ys, k);
        }
      }
      ArcListsEqual(xs[1..], ys[1..]);
      assert xs == [xs[0]] + xs[1..] && ys == [ys[0]] + ys[1..];
    }
  }

  /**
   * Canonical form: two well-formed automata that give every key sequence
   * the same weight are the same value.
   */
  lemma {:induction false} Canonical(a: Automaton, b: Automaton)
    requires WellFormed(a) && WellFormed(b)
    requires forall ks :: WeightOf(a, ks) == WeightOf(b, ks)
    ensures a == b
    decreases Size(a)
  {
    if a.Null? && b.Shared? {
      var ks := SomeWeightNonZero(b);
      assert false;
    } else if a.Shared? && b.Null? {
      var ks := SomeWeightNonZero(a);
      assert false;
    } else if a.Shared? {
      var ka := StartWeightIsLeast(a);
      var kb := StartWeightIsLeast(b);
      assert a.startWeight == b.startWeight by {
        assert AtMost(a.startWeight, WeightOf(a, kb)) && AtMost(b.startWeight, WeightOf(b, ka));
      }
      var sa, sb := a.state, b.state;
      forall ks ensures StateWeight(sa, ks) == StateWeight(sb, ks) {
        assert WeightOf(a, ks) == WeightOf(b, ks);
      }
      assert sa.finalWeight == StateWeight(sa, []) == StateWeight(sb, []) == sb.finalWeight;
      SizeOfShared(a.startWeight, sa);
      forall k ensures ArcAt(sa.arcs, k) == ArcAt(sb.arcs, k) {
        forall ks ensures WeightOf(ArcAt(sa.arcs, k), ks) == WeightOf(ArcAt(sb.arcs, k), ks) {
          assert ([k] + ks)[1..] == ks;
          assert StateWeight(sa, [k] + ks) == StateWeight(sb, [k] + ks);
        }
        ArcAtSize(sa.arcs, k);
        ArcAtWellFormed(sa.arcs, k);
        ArcAtWellFormed(sb.arcs, k);
        Canonical(ArcAt(sa.arcs, k), ArcAt(sb.arcs, k));
      }
      ArcListsEqual(sa.arcs, sb.arcs);
    }
  }

  // enumerate: the (key sequence, weight) pairs reported to the callback, in order.

  /**
   * enumerate(previousKeys, previousWeight, automaton): nothing when the
   * accumulated weight is zero; otherwise the state's own entry when its
   * final weight is not zero, then the entries through each arc in key order.
   */
  function Enumerate(prefix: seq<Key>, previous: Weight, a: Automaton): seq<(seq<Key>, Weight)>
    decreases a, 1
  {
    match a
    case Null => []
    case Shared(w, s) =>
      var current := Times(previous, w);
      if current == Zero then []
      else
        (if s.finalWeight != Zero then [(prefix, Times(current, s.finalWeight))] else [])
        + EnumerateArcs(prefix, current, s, 0)
  }

  function EnumerateArcs(prefix: seq<Key>, current: Weight, s: State, i: nat): seq<(seq<Key>, Weight)>
    requires i <= |s.arcs|
    decreases s, |s.arcs| - i
  {
    if i == |s.arcs| then []
    else Enumerate(prefix + [s.arcs[i].0], current, s.arcs[i].1) + EnumerateArcs(prefix, current, s, i + 1)
  }

  /** Each reported pair extends the prefix and carries the previous weight times the automaton's weight, never zero. */
  ghost predicate ReportsWeights(prefix: seq<Key>, previous: Weight, a: Automaton, e: seq<(seq<Key>, Weight)>)
  {
    forall j :: 0 <= j < |e| ==>
      && |prefix| <= |e[j].0| && e[j].0[..|prefix|] == prefix
      && e[j].1 == Times(previous, WeightOf(a, e[j].0[|prefix|..]))
      && e[j].1 != Zero
  }

  /** Every key sequence with a non-zero weight is reported, after the prefix. */
  ghost predicate ReportsAll(prefix: seq<Key>, previous: Weight, a: Automaton, e: seq<(seq<Key>, Weight)>)
  {
    forall ks :: Times(previous, WeightOf(a, ks)) != Zero ==> (prefix + ks, Times(previous, WeightOf(a, ks))) in e
  }

  lemma {:induction false} EnumerateMeaning(prefix: seq<Key>, previous: Weight, a: Automaton)
    requires WellFormed(a)
    ensures ReportsWeights(prefix, previous, a, Enumerate(prefix, previous, a))
    ensures ReportsAll(prefix, previous, a, Enumerate(prefix, previous, a))
    decreases a, 1
  {
    var e := Enumerate(prefix, previous, a);
    if a.Shared? {
      var w, s := a.startWeight, a.state;
      var current := Times(previous, w);
      if current != Zero {
        var own: seq<(seq<Key>, Weight)> := if s.finalWeight != Zero then [(prefix, Times(current, s.finalWeight))] else [];
        var rest := EnumerateArcs(prefix, current, s, 0);
        assert e == own + rest;
        EnumerateArcsMeaning(prefix, current, s, 0);
        assert s.arcs[0..] == s.arcs;
        forall j | 0 <= j < |e|
          ensures |prefix| <= |e[j].0| && e[j].0[..|prefix|] == prefix
          ensures e[j].1 == Times(previous, WeightOf(a, e[j].0[|prefix|..])) && e[j].1 != Zero
        {
          var ks := e[j].0;
          if j < |own| {
            assert ks[|prefix|..] == [];
            TimesAssociates(previous, w, s.finalWeight);
          } else {
            var r := rest[j - |own|];
            assert r == e[j];
            var tail := ks[|prefix|..];
            assert tail == [ks[|prefix|]] + ks[|prefix| + 1..];
            assert tail[1..] == ks[|prefix| + 1..];
            TimesAssociates(previous, w, StateWeight(s, tail));
          }
        }
        forall ks | Times(previous, WeightOf(a, ks)) != Zero
          ensures (prefix + ks, Times(previous, WeightOf(a, ks))) in e
        {
          TimesAssociates(previous, w, StateWeight(s, ks));
          if ks == [] {
            assert prefix + ks == prefix;
            assert own[0] == (prefix + ks, Times(previous, WeightOf(a, ks)));
          } else {
            assert ks == [ks[0]] + ks[1..];
            assert prefix + [ks[0]] + ks[1..] == prefix + ks;
            assert (prefix + ks, Times(previous, WeightOf(a, ks))) in rest;
          }
        }
      } else {
        forall ks ensures Times(previous, WeightOf(a, ks)) == Zero {
          TimesAssociates(previous, w, StateWeight(s, ks));
        }
      }
    }
  }

  lemma {:induction false} EnumerateArcsMeaning(prefix: seq<Key>, current: Weight, s: State, i: nat)
    requires StateWellFormed(s) && i <= |s.arcs|
    ensures forall j :: 0 <= j < |EnumerateArcs(prefix, current, s, i)| ==>
      var p := EnumerateArcs(prefix, current, s, i)[j];
      && |prefix| < |p.0| && p.0[..|prefix|] == prefix
      && p.1 == Times(current, WeightOf(ArcAt(s.arcs[i..], p.0[|prefix|]), p.0[|prefix| + 1..]))
      && p.1 != Zero
    ensures forall k, ks :: Times(current, WeightOf(ArcAt(s.arcs[i..], k), ks)) != Zero ==>
      (prefix + [k] + ks, Times(current, WeightOf(ArcAt(s.arcs[i..], k), ks))) in EnumerateArcs(prefix, current, s, i)
    decreases s, |s.arcs| - i
  {
    if i < |s.arcs| {
      var key, child := s.arcs[i].0, s.arcs[i].1;
      var first := Enumerate(prefix + [key], current, child);
      var rest := EnumerateArcs(prefix, current, s, i + 1);
      var arcs := s.arcs[i..];
      assert arcs[1..] == s.arcs[i + 1..];
      assert forall m :: 0 < m < |arcs| ==> key < arcs[m].0;
      EnumerateMeaning(prefix + [key], current, child);
      EnumerateArcsMeaning(prefix, current, s, i + 1);
      var e := first + rest;
      forall j | 0 <= j < |e|
        ensures |prefix| < |e[j].0| && e[j].0[..|prefix|] == prefix
        ensures e[j].1 == Times(current, WeightOf(ArcAt(arcs, e[j].0[|prefix|]), e[j].0[|prefix| + 1..]))
        ensures e[j].1 != Zero
      {
        var ks := e[j].0;
        if j < |first| {
          assert first[j] == e[j];
          assert ks[..|prefix| + 1] == prefix + [key];
          assert ks[..|prefix|] == (prefix + [key])[..|prefix|] == prefix;
          assert ks[|prefix|] == key;
        } else {
          assert rest[j - |first|] == e[j];
          var k := ks[|prefix|];
          if k == key {
            // The later arcs have larger keys, so none of them carries key.
            AbsentBelow(s.arcs[i + 1..], key);
            assert false;
          }
        }
      }
      forall k, ks | Times(current, WeightOf(ArcAt(arcs, k), ks)) != Zero
        ensures (prefix + [k] + ks, Times(current, WeightOf(ArcAt(arcs, k), ks))) in e
      {
        if k == key {
          assert (prefix + [key] + ks, Times(current, WeightOf(child, ks))) in first;
        } else {
          assert (prefix + [k] + ks, Times(current, WeightOf(ArcAt(arcs, k), ks))) in rest;
        }
      }
    }
  }

  /**
   * enumerate from the top: a pair (ks, w) is reported exactly when w is the
   * weight the automaton gives ks and is not zero.
   */
  lemma EnumerateReportsWeights(a: Automaton, ks: seq<Key>, w: Weight)
    requires WellFormed(a)
    ensures (ks, w) in Enumerate([], One, a) <==> w == WeightOf(a, ks) && w != Zero
  {
    EnumerateMeaning([], One, a);
    var e := Enumerate([], One, a);
    if (ks, w) in e {
      var j :| 0 <= j < |e| && e[j] == (ks, w);
      assert ks[0..] == ks;
    }
    if w == WeightOf(a, ks) && w != Zero {
      assert [] + ks == ks;
    }
  }

  // The loops of normaliseArcs, computeUnion and addAutomaton, as the source
  // runs them, each proved to compute its specification above.

  /** normaliseArcs returns the sum, and the start weight and arcs divided by it, which the sum multiplies back. */
  lemma NormaliseArcsProperties(start: Weight, arcs: seq<(Key, Automaton)>)
    ensures var r := NormaliseArcs(start, arcs);
      && r.0 == SumFrom(start, arcs)
      && Times(r.0, r.1) == start
      && |r.2| == |arcs|
      && (forall i :: 0 <= i < |arcs| ==> r.2[i].0 == arcs[i].0 && Times(r.0, StartWeight(r.2[i].1)) == StartWeight(arcs[i].1))
      && (r.0 != Zero ==> Normalised(State(r.1, r.2)))
      && (r.0 == One ==> r.1 == start && r.2 == arcs)
  {
    var sum := SumFrom(start, arcs);
    if sum != One && sum != Zero {
      SumDivided(start, arcs, sum);
      DivideCancels(sum, sum);
    }
  }

  /** The summing loop and the in-place division loop of normaliseArcs. */
  method NormaliseArcsLoop(start: Weight, arcs: seq<(Key, Automaton)>)
    returns (normalisation: Weight, newStart: Weight, newArcs: seq<(Key, Automaton)>)
    ensures (normalisation, newStart, newArcs) == NormaliseArcs(start, arcs)
  {
    var sum := start;
    for i := 0 to |arcs|
      invariant SumFrom(sum, arcs[i..]) == SumFrom(start, arcs)
    {
      assert arcs[i..][1..] == arcs[i + 1..];
      sum := Plus(sum, StartWeight(arcs[i].1));
    }
    assert arcs[|arcs|..] == [];
    if sum == One {
      return One, start, arcs;
    }
    newArcs := arcs;
    for i := 0 to |arcs|
      invariant |newArcs| == |arcs|
      invariant forall j :: 0 <= j < i ==> newArcs[j] == (arcs[j].0, Predivide(arcs[j].1, sum))
      invariant forall j :: i <= j < |arcs| ==> newArcs[j] == arcs[j]
    {
      newArcs := newArcs[i := (newArcs[i].0, Predivide(newArcs[i].1, sum))];
    }
    assert newArcs == PredivideArcs(arcs, sum);
    return sum, LeftDivide(start, sum), newArcs;
  }

  lemma ScaledFrom(w: Weight, arcs: seq<(Key, Automaton)>, i: nat)
    requires i < |arcs|
    ensures Scaled(w, arcs[i..]) == [(arcs[i].0, Pre(w, arcs[i].1))] + Scaled(w, arcs[i + 1..])
  {
    var l, r := Scaled(w, arcs[i..]), [(arcs[i].0, Pre(w, arcs[i].1))] + Scaled(w, arcs[i + 1..]);
    assert |l| == |r|;
    forall j | 0 <= j < |l| ensures l[j] == r[j] {
      if j > 0 {
        assert arcs[i..][j] == arcs[i + 1..][j - 1];
      }
    }
  }

  /** One step of the merge, for two non-empty lists. */
  lemma MergeStep(xs: seq<(Key, Automaton)>, ys: seq<(Key, Automaton)>)
    requires xs != [] && ys != []
    ensures xs[0].0 < ys[0].0 ==> MergeArcs(xs, ys) == [xs[0]] + MergeArcs(xs[1..], ys)
    ensures ys[0].0 < xs[0].0 ==> MergeArcs(xs, ys) == [ys[0]] + MergeArcs(xs, ys[1..])
    ensures xs[0].0 == ys[0].0 ==> MergeArcs(xs, ys) == [(xs[0].0, Union(xs[0].1, ys[0].1))] + MergeArcs(xs[1..], ys[1..])
  {
  }

  /** The loop's next element: the head of the scaled remainder, and the scaled rest. */
  lemma ScaledNext(w: Weight, arcs: seq<(Key, Automaton)>, i: nat)
    requires i < |arcs|
    ensures Scaled(w, arcs[i..]) != []
    ensures Scaled(w, arcs[i..])[0] == (arcs[i].0, Pre(w, arcs[i].1))
    ensures Scaled(w, arcs[i..])[1..] == Scaled(w, arcs[i + 1..])
  {
    ScaledFrom(w, arcs, i);
  }

  /** The merge loop's step: the arc it appends to what is done, and the remainders it leaves. */
  lemma MergeAdvance(done: seq<(Key, Automaton)>, xs: seq<(Key, Automaton)>, ys: seq<(Key, Automaton)>)
    requires xs != [] && ys != []
    ensures xs[0].0 < ys[0].0 ==> done + MergeArcs(xs, ys) == (done + [xs[0]]) + MergeArcs(xs[1..], ys)
    ensures ys[0].0 < xs[0].0 ==> done + MergeArcs(xs, ys) == (done + [ys[0]]) + MergeArcs(xs, ys[1..])
    ensures xs[0].0 == ys[0].0 ==>
              done + MergeArcs(xs, ys) == (done + [(xs[0].0, Union(xs[0].1, ys[0].1))]) + MergeArcs(xs[1..], ys[1..])
  {
    MergeStep(xs, ys);
    if xs[0].0 < ys[0].0 {
      AppendOne(done, xs[0], MergeArcs(xs[1..], ys));
    } else if ys[0].0 < xs[0].0 {
      AppendOne(done, ys[0], MergeArcs(xs, ys[1..]));
    } else {
      AppendOne(done, (xs[0].0, Union(xs[0].1, ys[0].1)), MergeArcs(xs[1..], ys[1..]));
    }
  }

  lemma AppendOne<T>(done: seq<T>, e: T, rest: seq<T>)
    ensures done + ([e] + rest) == (done + [e]) + rest
  {
  }

  /**
   * The merge loop of computeUnion: walk both key-ordered arc lists, take the
   * smaller key (weighted by its side's pre-weight) or, on equal keys, the
   * union of both; then copy what is left of either list.
   */
  method MergeLoop(leftPre: Weight, leftArcs: seq<(Key, Automaton)>, rightPre: Weight, rightArcs: seq<(Key, Automaton)>)
    returns (newArcs: seq<(Key, Automaton)>)
    ensures newArcs == MergeArcs(Scaled(leftPre, leftArcs), Scaled(rightPre, rightArcs))
  {
    ghost var target := MergeArcs(Scaled(leftPre, leftArcs), Scaled(rightPre, rightArcs));
    newArcs := [];
    var i, j := 0, 0;
    assert leftArcs[0..] == leftArcs && rightArcs[0..] == rightArcs;
    while i < |leftArcs| && j < |rightArcs|
      invariant i <= |leftArcs| && j <= |rightArcs|
      invariant newArcs + MergeArcs(Scaled(leftPre, leftArcs[i..]), Scaled(rightPre, rightArcs[j..])) == target
      decreases |leftArcs| - i + |rightArcs| - j
    {
      ScaledNext(leftPre, leftArcs, i);
      ScaledNext(rightPre, rightArcs, j);
      MergeAdvance(newArcs, Scaled(leftPre, leftArcs[i..]), Scaled(rightPre, rightArcs[j..]));
      var left, right := leftArcs[i], rightArcs[j];
      if left.0 < right.0 {
        newArcs := newArcs + [(left.0, Pre(leftPre, left.1))];
        i := i + 1;
      } else if right.0 < left.0 {
        newArcs := newArcs + [(right.0, Pre(rightPre, right.1))];
        j := j + 1;
      } else {
        newArcs := newArcs + [(left.0, Union(Pre(leftPre, left.1), Pre(rightPre, right.1)))];
        i, j := i + 1, j + 1;
      }
    }
    if i < |leftArcs| {
      assert Scaled(rightPre, rightArcs[j..]) == [];
      newArcs := CopyScaled(newArcs, leftPre, leftArcs, i);
    } else {
      assert Scaled(leftPre, leftArcs[i..]) == [];
      newArcs := CopyScaled(newArcs, rightPre, rightArcs, j);
    }
  }

  /** The tail loops of computeUnion's merge: the remaining arcs of one side, weighted, after the merged ones. */
  method CopyScaled(done: seq<(Key, Automaton)>, pre: Weight, arcs: seq<(Key, Automaton)>, from: nat)
    returns (newArcs: seq<(Key, Automaton)>)
    requires from <= |arcs|
    ensures newArcs == done + Scaled(pre, arcs[from..])
  {
    newArcs := done;
    var i := from;
    while i < |arcs|
      invariant from <= i <= |arcs|
      invariant newArcs + Scaled(pre, arcs[i..]) == done + Scaled(pre, arcs[from..])
    {
      CopyStep(newArcs, pre, arcs, i);
      newArcs := newArcs + [(arcs[i].0, Pre(pre, arcs[i].1))];
      i := i + 1;
    }
    assert Scaled(pre, arcs[i..]) == [];
  }

  /** One step of the tail loop: the next weighted arc moves from the remainder to what is done. */
  lemma CopyStep(done: seq<(Key, Automaton)>, pre: Weight, arcs: seq<(Key, Automaton)>, i: nat)
    requires i < |arcs|
    ensures done + Scaled(pre, arcs[i..]) == (done + [(arcs[i].0, Pre(pre, arcs[i].1))]) + Scaled(pre, arcs[i + 1..])
  {
    ScaledNext(pre, arcs, i);
    AppendOne(done, (arcs[i].0, Pre(pre, arcs[i].1)), Scaled(pre, arcs[i + 1..]));
  }

  /**
   * One step of addAutomaton's loop on a std::map: a key already present
   * gets the union of its automaton and the new one; a new key is inserted in
   * key order.
   */
  function InsertArc(arcs: seq<(Key, Automaton)>, arc: (Key, Automaton)): seq<(Key, Automaton)>
  {
    if arcs == [] then [arc]
    else if arc.0 < arcs[0].0 then [arc] + arcs
    else if arc.0 == arcs[0].0 then [(arc.0, Union(arcs[0].1, arc.1))] + arcs[1..]
    else [arcs[0]] + InsertArc(arcs[1..], arc)
  }

  lemma {:induction false} InsertAtEnd(arcs: seq<(Key, Automaton)>, arc: (Key, Automaton))
    requires KeysIncreasing(arcs + [arc])
    ensures InsertArc(arcs, arc) == arcs + [arc]
  {
    if arcs != [] {
      assert (arcs + [arc])[0] == arcs[0] && (arcs + [arc])[|arcs|] == arc;
      assert arcs[1..] + [arc] == (arcs + [arc])[1..];
      InsertAtEnd(arcs[1..], arc);
    }
  }

  /** Merging one more arc, with the largest key, on the right is inserting it into the merge. */
  lemma {:induction false} MergeSnoc(xs: seq<(Key, Automaton)>, ys: seq<(Key, Automaton)>, y: (Key, Automaton))
    requires KeysIncreasing(xs) && KeysIncreasing(ys + [y])
    ensures MergeArcs(xs, ys + [y]) == InsertArc(MergeArcs(xs, ys), y)
    decreases |xs| + |ys|
  {
    var ysy := ys + [y];
    if xs == [] {
      InsertAtEnd(ys, y);
    } else if ys == [] {
      assert ysy == [y];
      MergeOne(xs, y);
    } else {
      assert ysy[0] == ys[0] && ysy[1..] == ys[1..] + [y];
      assert ys[0].0 < y.0 by {
        assert ysy[|ys|] == y;
      }
      if xs[0].0 < ys[0].0 {
        MergeSnoc(xs[1..], ys, y);
        assert MergeArcs(xs, ysy) == [xs[0]] + MergeArcs(xs[1..], ysy);
        InsertAfter(xs[0], MergeArcs(xs[1..], ys), y);
      } else if ys[0].0 < xs[0].0 {
        MergeSnoc(xs, ys[1..], y);
        assert MergeArcs(xs, ysy) == [ys[0]] + MergeArcs(xs, ysy[1..]);
        InsertAfter(ys[0], MergeArcs(xs, ys[1..]), y);
      } else {
        MergeSnoc(xs[1..], ys[1..], y);
        var u := (xs[0].0, Union(xs[0].1, ys[0].1));
        assert MergeArcs(xs, ysy) == [u] + MergeArcs(xs[1..], ysy[1..]);
        InsertAfter(u, MergeArcs(xs[1..], ys[1..]), y);
      }
    }
  }

  /** Merging with a single arc is inserting that arc. */
  lemma {:induction false} MergeOne(xs: seq<(Key, Automaton)>, y: (Key, Automaton))
    ensures MergeArcs(xs, [y]) == InsertArc(xs, y)
    decreases |xs|
  {
    if xs != [] && xs[0].0 < y.0 {
      MergeOne(xs[1..], y);
      assert MergeArcs(xs, [y]) == [xs[0]] + MergeArcs(xs[1..], [y]);
    } else if xs != [] && xs[0].0 == y.0 {
      assert MergeArcs(xs, [y]) == [(y.0, Union(xs[0].1, y.1))] + MergeArcs(xs[1..], []);
    }
  }

  /** Inserting a larger key after the first arc leaves that arc first. */
  lemma InsertAfter(a: (Key, Automaton), rest: seq<(Key, Automaton)>, y: (Key, Automaton))
    requires a.0 < y.0
    ensures InsertArc([a] + rest, y) == [a] + InsertArc(rest, y)
  {
    assert ([a] + rest)[1..] == rest;
  }

  lemma ScaledSnoc(w: Weight, arcs: seq<(Key, Automaton)>, j: nat)
    requires j < |arcs| && KeysIncreasing(arcs)
    ensures Scaled(w, arcs[..j + 1]) == Scaled(w, arcs[..j]) + [(arcs[j].0, Pre(w, arcs[j].1))]
    ensures KeysIncreasing(Scaled(w, arcs[..j + 1]))
  {
    var l, r := Scaled(w, arcs[..j + 1]), Scaled(w, arcs[..j]) + [(arcs[j].0, Pre(w, arcs[j].1))];
    ScaledAt(w, arcs[..j + 1]);
    ScaledAt(w, arcs[..j]);
    assert |l| == |r|;
    forall k | 0 <= k < |l| ensures l[k] == r[k] {
    }
  }

  /** The loop of addAutomaton: each right arc, weighted by rightPre, is found or inserted in the left arcs. */
  method AddArcsLoop(arcs: seq<(Key, Automaton)>, rightPre: Weight, rightArcs: seq<(Key, Automaton)>)
    returns (result: seq<(Key, Automaton)>)
    requires KeysIncreasing(arcs) && KeysIncreasing(rightArcs)
    ensures result == MergeArcs(arcs, Scaled(rightPre, rightArcs))
  {
    result := arcs;
    assert Scaled(rightPre, rightArcs[..0]) == [];
    for j := 0 to |rightArcs|
      invariant result == MergeArcs(arcs, Scaled(rightPre, rightArcs[..j]))
    {
      var arc := (rightArcs[j].0, Pre(rightPre, rightArcs[j].1));
      ScaledSnoc(rightPre, rightArcs, j);
      MergeSnoc(arcs, Scaled(rightPre, rightArcs[..j]), arc);
      result := InsertArc(result, arc);
    }
    assert rightArcs[..|rightArcs|] == rightArcs;
  }
}
