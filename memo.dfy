// The memo of include/flipsta/detail/shared_automaton_state_memo.hpp: the
// store of shared states, together with a cache from the arguments of a
// union (normalised start weights and state addresses) to its result.  The
// memo must only ever cache: memoisedUnion with the memo gives the same
// automaton as the union computed afresh (module SharedAutomaton).
module StateMemo {
  import opened Wrappers
  import opened Tropical
  import opened SharedAutomaton
  import opened Sole

  /**
   * The key of a cached union: the normalised start weight and the state
   * address of each argument.
   */
  datatype UnionArguments = UnionArguments(leftWeight: Weight, leftPointer: Pointer,
                                           rightWeight: Weight, rightPointer: Pointer)

  /**
   * The UnionArguments constructor: the argument at the lower address goes
   * first, its weight travelling with it, so that both orders of the same
   * union share one entry.
   */
  function MakeUnionArguments(leftWeight: Weight, leftPointer: Pointer,
                              rightWeight: Weight, rightPointer: Pointer): (a: UnionArguments)
    ensures a.leftPointer <= a.rightPointer
    ensures a == UnionArguments(leftWeight, leftPointer, rightWeight, rightPointer)
         || a == UnionArguments(rightWeight, rightPointer, leftWeight, leftPointer)
    ensures leftPointer <= rightPointer ==> a == UnionArguments(leftWeight, leftPointer, rightWeight, rightPointer)
  {
    if rightPointer < leftPointer then UnionArguments(rightWeight, rightPointer, leftWeight, leftPointer)
    else UnionArguments(leftWeight, leftPointer, rightWeight, rightPointer)
  }

  /** Swapping two arguments at different addresses gives the same key. */
  lemma ArgumentsOrderFree(leftWeight: Weight, leftPointer: Pointer, rightWeight: Weight, rightPointer: Pointer)
    requires leftPointer != rightPointer
    ensures MakeUnionArguments(leftWeight, leftPointer, rightWeight, rightPointer)
         == MakeUnionArguments(rightWeight, rightPointer, leftWeight, leftPointer)
  {
  }

  /**
   * A cached result: a start weight and a state address (None for a null
   * pointer), held weakly when the state is one of the arguments.
   */
  datatype StoredResult = StoredResult(weight: Weight, state: Option<Pointer>, weak: bool)

  /** An automaton as the memo hands it out: a start weight and a state address. */
  datatype Handle = Handle(startWeight: Weight, state: Option<Pointer>)

  /** computeUnion of the arguments, with the states at their addresses. */
  ghost function UnionOf(objects: map<Pointer, State>, a: UnionArguments): Automaton
    requires a.leftPointer in objects && a.rightPointer in objects
  {
    var l, r := objects[a.leftPointer], objects[a.rightPointer];
    ComputeUnion(a.leftWeight, l.finalWeight, l.arcs, a.rightWeight, r.finalWeight, r.arcs)
  }

  /** A cache entry is right: its result is the non-null union of its arguments. */
  ghost predicate EntryCorrect(objects: map<Pointer, State>, a: UnionArguments, r: StoredResult)
  {
    && a.leftPointer in objects && a.rightPointer in objects
    && r.weight != Zero && r.state.Some? && r.state.value in objects
    && Shared(r.weight, objects[r.state.value]) == UnionOf(objects, a)
  }

  /** Every cache entry is right. */
  ghost predicate EntriesCorrect(objects: map<Pointer, State>, memo: map<UnionArguments, StoredResult>)
  {
    forall a :: a in memo ==> EntryCorrect(objects, a, memo[a])
  }

  /** The entries that survive removeStatePointer(p): those with p as neither argument. */
  function Forget(memo: map<UnionArguments, StoredResult>, p: Pointer): (m: map<UnionArguments, StoredResult>)
    ensures forall a :: a in m <==> a in memo && a.leftPointer != p && a.rightPointer != p
    ensures forall a :: a in m ==> m[a] == memo[a]
  {
    var withoutLeft := map a | a in memo && a.leftPointer != p :: memo[a];
    map a | a in withoutLeft && a.rightPointer != p :: withoutLeft[a]
  }

  /** Storing more states keeps every cache entry right. */
  lemma CorrectGrows(objects: map<Pointer, State>, more: map<Pointer, State>, memo: map<UnionArguments, StoredResult>)
    requires EntriesCorrect(objects, memo)
    requires forall q :: q in objects ==> q in more && more[q] == objects[q]
    ensures EntriesCorrect(more, memo)
  {
    forall a | a in memo ensures EntryCorrect(more, a, memo[a]) {
      assert EntryCorrect(objects, a, memo[a]);
    }
  }

  /** Dropping entries keeps the rest right, even when one state goes. */
  lemma CorrectForgets(objects: map<Pointer, State>, memo: map<UnionArguments, StoredResult>, p: Pointer)
    requires EntriesCorrect(objects, memo)
    requires forall a :: a in memo && a.leftPointer != p && a.rightPointer != p ==> memo[a].state != Some(p)
    ensures EntriesCorrect(objects - {p}, Forget(memo, p))
  {
    var m := Forget(memo, p);
    forall a | a in m ensures EntryCorrect(objects - {p}, a, m[a]) {
      assert EntryCorrect(objects, a, memo[a]);
    }
  }

  /** computeUnion does not depend on the order of its arguments. */
  lemma ComputeUnionCommutes(l: Weight, left: State, r: Weight, right: State)
    requires l != Zero && r != Zero && StateWellFormed(left) && StateWellFormed(right)
    ensures ComputeUnion(l, left.finalWeight, left.arcs, r, right.finalWeight, right.arcs)
         == ComputeUnion(r, right.finalWeight, right.arcs, l, left.finalWeight, left.arcs)
  {
    var a := ComputeUnion(l, left.finalWeight, left.arcs, r, right.finalWeight, right.arcs);
    var b := ComputeUnion(r, right.finalWeight, right.arcs, l, left.finalWeight, left.arcs);
    ComputeUnionProperties(l, left.finalWeight, left.arcs, r, right.finalWeight, right.arcs);
    ComputeUnionProperties(r, right.finalWeight, right.arcs, l, left.finalWeight, left.arcs);
    forall ks ensures WeightOf(a, ks) == WeightOf(b, ks) {
      PlusCommutes(Times(l, StateWeight(left, ks)), Times(r, StateWeight(right, ks)));
    }
    Canonical(a, b);
  }

  /** computeUnion of two well-formed states with non-zero weights is well formed and not null. */
  lemma ComputeUnionShared(l: Weight, left: State, r: Weight, right: State)
    requires l != Zero && r != Zero && StateWellFormed(left) && StateWellFormed(right)
    ensures WellFormed(ComputeUnion(l, left.finalWeight, left.arcs, r, right.finalWeight, right.arcs))
    ensures ComputeUnion(l, left.finalWeight, left.arcs, r, right.finalWeight, right.arcs).Shared?
  {
    var c := ComputeUnion(l, left.finalWeight, left.arcs, r, right.finalWeight, right.arcs);
    ComputeUnionProperties(l, left.finalWeight, left.arcs, r, right.finalWeight, right.arcs);
    var ks := StateReachesOne(left);
    assert WeightOf(c, ks) == Plus(Times(l, One), Times(r, StateWeight(right, ks)));
  }

  class SharedAutomatonMemo {
    /** The store of states (SharedAutomatonMemo derives from SoleStore). */
    const store: SoleStore<State, State>
    /** The cache, by arguments. */
    var memo: map<UnionArguments, StoredResult>

    /** States are compared by value, and every stored state is well formed. */
    ghost predicate Valid()
      reads this, store
    {
      && store.Valid()
      && (forall s :: store.key(s) == s)
      && (forall p :: p in store.objects ==> StateWellFormed(store.objects[p]))
    }

    /** Every cache entry holds the union of its arguments. */
    ghost predicate Correct()
      reads this, store
    {
      EntriesCorrect(store.objects, memo)
    }

    /** The constructor: an empty cache over a store holding the singleton final state. */
    constructor (finalPointer: Pointer)
      ensures Valid() && Correct() && fresh(store)
      ensures store.objects == map[finalPointer := FinalState] && memo == map[]
    {
      var states := new SoleStore<State, State>(s => s);
      states.Set(finalPointer, FinalState);
      store := states;
      memo := map[];
    }

    /**
     * retrieve: a null automaton when the arguments are not cached, and the
     * cached union of the arguments otherwise.
     */
    function Retrieve(arguments: UnionArguments): (h: Handle)
      reads this, store
      requires Correct()
      ensures h.startWeight == Zero <==> arguments !in memo
      ensures arguments !in memo ==> h == Handle(Zero, None)
      ensures arguments in memo ==>
        && h.state.Some? && h.state.value in store.objects
        && arguments.leftPointer in store.objects && arguments.rightPointer in store.objects
        && Shared(h.startWeight, store.objects[h.state.value]) == UnionOf(store.objects, arguments)
    {
      if arguments in memo then
        assert EntryCorrect(store.objects, arguments, memo[arguments]);
        Handle(memo[arguments].weight, memo[arguments].state)
      else
        Handle(Zero, None)
    }

    /**
     * remember: cache the result for arguments not cached yet, weakly when
     * its state is one of the arguments.  A right result keeps the cache right.
     */
    method Remember(arguments: UnionArguments, result: Handle)
      requires arguments !in memo
      modifies this
      ensures memo == old(memo)[arguments := StoredResult(result.startWeight, result.state,
                       result.state == Some(arguments.leftPointer) || result.state == Some(arguments.rightPointer))]
      ensures old(Correct()) && EntryCorrect(store.objects, arguments, memo[arguments]) ==> Correct()
      ensures Correct() ==> Retrieve(arguments) == result
    {
      if result.state == Some(arguments.leftPointer) || result.state == Some(arguments.rightPointer) {
        memo := memo[arguments := StoredResult(result.startWeight, result.state, true)];
      } else {
        memo := memo[arguments := StoredResult(result.startWeight, result.state, false)];
      }
    }

    /** removeStatePointer: drop every entry with p as its left or its right argument, and no other. */
    method RemoveStatePointer(p: Pointer)
      modifies this
      ensures memo == Forget(old(memo), p)
      ensures old(Correct()) ==> Correct()
    {
      memo := map a | a in memo && a.leftPointer != p :: memo[a];
      memo := map a | a in memo && a.rightPointer != p :: memo[a];
    }

    /**
     * The destruction of the state at p: it leaves the cache, then the store.
     * No cache entry still holds it as a result other than through a weak
     * pointer, since a strong one would keep it alive.
     */
    method ReleaseState(p: Pointer)
      requires Valid() && p in store.objects
      requires forall a :: a in memo && a.leftPointer != p && a.rightPointer != p ==> memo[a].state != Some(p)
      modifies this, store
      ensures Valid()
      ensures memo == Forget(old(memo), p) && store.objects == old(store.objects) - {p}
      ensures old(Correct()) ==> Correct()
    {
      ghost var before := memo;
      RemoveStatePointer(p);
      if EntriesCorrect(store.objects, before) {
        CorrectForgets(store.objects, before, p);
      }
      store.RemovePointer(p);
    }

    /** The destructor: the cache must be empty; the singleton final state leaves the store. */
    method Destroy(finalPointer: Pointer)
      requires Valid() && memo == map[] && finalPointer in store.objects
      modifies store
      ensures store.objects == old(store.objects) - {finalPointer}
    {
      store.Remove(finalPointer);
    }
  }

  /**
   * memoisedUnion with the memo: normalise the start weights by their sum,
   * look the arguments up, and only when they are not cached compute the
   * union, store its state at `newAddress` (if no equal state is stored yet)
   * and cache it; then multiply the sum back in.  The result is the union
   * computed without the memo, and the memo stays right.
   */
  method MemoisedUnionCached(memo: SharedAutomatonMemo, left: Automaton, leftPointer: Pointer,
                             right: Automaton, rightPointer: Pointer, newAddress: Pointer)
    returns (result: Automaton)
    requires memo.Valid() && memo.Correct()
    requires WellFormed(left) && WellFormed(right) && !IsNull(left) && !IsNull(right)
    requires leftPointer in memo.store.objects && memo.store.objects[leftPointer] == left.state
    requires rightPointer in memo.store.objects && memo.store.objects[rightPointer] == right.state
    requires newAddress !in memo.store.objects
    modifies memo, memo.store
    ensures memo.Valid() && memo.Correct()
    ensures result == MemoisedUnion(left, right)
  {
    var normalisation := Plus(left.startWeight, right.startWeight);
    var l := LeftDivide(left.startWeight, normalisation);
    var r := LeftDivide(right.startWeight, normalisation);
    var arguments := MakeUnionArguments(l, leftPointer, r, rightPointer);
    ghost var expected := ComputeUnion(l, left.state.finalWeight, left.state.arcs,
                                       r, right.state.finalWeight, right.state.arcs);
    ComputeUnionShared(l, left.state, r, right.state);
    if arguments != UnionArguments(l, leftPointer, r, rightPointer) {
      ComputeUnionCommutes(l, left.state, r, right.state);
    }
    assert UnionOf(memo.store.objects, arguments) == expected;
    var found := memo.Retrieve(arguments);
    var computed: Automaton;
    if found.startWeight == Zero {
      computed := ComputeUnion(l, left.state.finalWeight, left.state.arcs,
                               r, right.state.finalWeight, right.state.arcs);
      ghost var before := memo.store.objects;
      GotProperties(memo.store.key, before, computed.state, newAddress);
      var p := memo.store.Get(computed.state, newAddress);
      CorrectGrows(before, memo.store.objects, memo.memo);
      assert UnionOf(memo.store.objects, arguments) == expected;
      memo.Remember(arguments, Handle(computed.startWeight, Some(p)));
    } else {
      computed := Shared(found.startWeight, memo.store.objects[found.state.value]);
    }
    result := Premultiply(computed, normalisation);
  }
}
