// The interning table of include/flipsta/detail/sole.hpp.  A SoleStore keeps
// at most one object per value: asking it for a value returns the object
// already stored with an equal value, or stores a new one.  Objects are
// known by their addresses, which the model makes abstract numbers; what
// "equal" means is the value type's own operator==, given here as a key
// function (two values are equal when their keys are).
module Sole {

  /** The address of an object handed out by a store. */
  type Pointer = nat

  /** No two stored objects hold equal values. */
  predicate Sole<V, K(==)>(key: V -> K, objects: map<Pointer, V>)
  {
    forall p, q :: p in objects && q in objects && key(objects[p]) == key(objects[q]) ==> p == q
  }

  /** Some stored object holds a value equal to v. */
  predicate Holds<V, K(==)>(key: V -> K, objects: map<Pointer, V>, v: V)
  {
    exists p :: p in objects && key(objects[p]) == key(v)
  }

  /**
   * get(v): the objects afterwards and the address returned.  An object equal
   * to v is returned as it is; otherwise v is stored at the newly allocated
   * address `newAddress`.
   */
  ghost function Got<V, K>(key: V -> K, objects: map<Pointer, V>, v: V, newAddress: Pointer): (map<Pointer, V>, Pointer)
    requires newAddress !in objects
  {
    if Holds(key, objects, v) then
      var p :| p in objects && key(objects[p]) == key(v);
      (objects, p)
    else
      (objects[newAddress := v], newAddress)
  }

  /**
   * get keeps the store sole, returns the one object equal to v, leaves the
   * store unchanged exactly when an equal value was stored, and otherwise
   * adds v at the new address and nothing else.
   */
  lemma GotProperties<V, K>(key: V -> K, objects: map<Pointer, V>, v: V, newAddress: Pointer)
    requires Sole(key, objects) && newAddress !in objects
    ensures var (after, p) := Got(key, objects, v, newAddress);
      && Sole(key, after)
      && p in after && key(after[p]) == key(v)
      && (forall q :: q in after && key(after[q]) == key(v) ==> q == p)
      && (after == objects <==> Holds(key, objects, v))
      && (!Holds(key, objects, v) ==> after == objects[newAddress := v] && p == newAddress)
      && (forall q :: q in objects ==> q in after && after[q] == objects[q])
  {
    if !Holds(key, objects, v) {
      assert newAddress in objects[newAddress := v];
    }
  }

  /**
   * Equality, not identity, decides sharing: asking again for any value equal
   * to v returns the same object and changes nothing.
   */
  lemma GetEqualValueAgain<V, K>(key: V -> K, objects: map<Pointer, V>, v: V, w: V, newAddress: Pointer, newAddress2: Pointer)
    requires Sole(key, objects) && newAddress !in objects
    requires key(v) == key(w)
    requires newAddress2 !in Got(key, objects, v, newAddress).0
    ensures Got(key, Got(key, objects, v, newAddress).0, w, newAddress2) == Got(key, objects, v, newAddress)
  {
    GotProperties(key, objects, v, newAddress);
    var (after, p) := Got(key, objects, v, newAddress);
    assert Holds(key, after, w) by {
      assert p in after && key(after[p]) == key(w);
    }
  }

  /** Storing a value not yet held at a new address keeps the store sole. */
  lemma SetKeepsSole<V, K>(key: V -> K, objects: map<Pointer, V>, p: Pointer, v: V)
    requires Sole(key, objects) && !Holds(key, objects, v) && p !in objects
    ensures Sole(key, objects[p := v])
  {
    assert forall q :: q in objects ==> key(objects[q]) != key(v);
  }

  /** After set(p) with value v, get of any value equal to v returns p. */
  lemma GetAfterSet<V, K>(key: V -> K, objects: map<Pointer, V>, p: Pointer, v: V, w: V, newAddress: Pointer)
    requires Sole(key, objects) && !Holds(key, objects, v) && p !in objects
    requires key(w) == key(v) && newAddress !in objects[p := v]
    ensures Got(key, objects[p := v], w, newAddress) == (objects[p := v], p)
  {
    var after := objects[p := v];
    SetKeepsSole(key, objects, p, v);
    assert p in after && key(after[p]) == key(w);
    assert forall q :: q in objects ==> key(objects[q]) != key(v);
  }

  class SoleStore<V, K(==)> {
    /** The value type's equality: values are equal when their keys are. */
    const key: V -> K
    /** The stored objects, by address. */
    var objects: map<Pointer, V>

    ghost predicate Valid()
      reads this
    {
      Sole(key, objects)
    }

    constructor (key: V -> K)
      ensures Valid() && this.key == key && objects == map[]
    {
      this.key := key;
      objects := map[];
    }

    predicate IsEmpty()
      reads this
    {
      objects == map[]
    }

    /**
     * get: the object with a value equal to v, storing v at the newly
     * allocated address `newAddress` when there is none.
     */
    method Get(v: V, newAddress: Pointer) returns (p: Pointer)
      requires Valid() && newAddress !in objects
      modifies this
      ensures Valid()
      ensures (objects, p) == Got(key, old(objects), v, newAddress)
    {
      GotProperties(key, objects, v, newAddress);
      if q :| q in objects && key(objects[q]) == key(v) {
        p := q;
      } else {
        objects := objects[newAddress := v];
        p := newAddress;
      }
    }

    /** set: store the object at p, whose value must not be stored yet. */
    method Set(p: Pointer, v: V)
      requires Valid() && !Holds(key, objects, v) && p !in objects
      modifies this
      ensures Valid()
      ensures objects == old(objects)[p := v]
    {
      SetKeepsSole(key, objects, p, v);
      objects := objects[p := v];
    }

    /** remove: erase the object at p from the store. */
    method Remove(p: Pointer)
      requires Valid() && p in objects
      modifies this
      ensures Valid()
      ensures objects == old(objects) - {p}
    {
      RemovePointer(p);
    }

    /** removePointer: erase exactly the one entry at address p, which must be stored. */
    method RemovePointer(p: Pointer)
      requires Valid() && p in objects
      modifies this
      ensures Valid()
      ensures objects == old(objects) - {p}
    {
      objects := objects - {p};
    }
  }
}
