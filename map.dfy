// The key-value map with an optional default value, and its vector-backed
// specialisation for dense keys (include/flipsta/map.hpp).
module Maps {
  import opened Wrappers
  import opened DenseIndex

  /**
   * The map that setting every pair of `pairs` in order produces: a key that
   * occurs more than once keeps the value of its last occurrence.
   */
  function FromPairs<K, V>(pairs: seq<(K, V)>): map<K, V>
  {
    if pairs == [] then map[]
    else FromPairs(pairs[..|pairs| - 1])[pairs[|pairs| - 1].0 := pairs[|pairs| - 1].1]
  }

  lemma {:induction false} FromPairsLastWins<K, V>(pairs: seq<(K, V)>, k: K)
    ensures k in FromPairs(pairs) <==> exists i :: 0 <= i < |pairs| && pairs[i].0 == k
    ensures k in FromPairs(pairs) ==>
      exists i :: 0 <= i < |pairs| && pairs[i] == (k, FromPairs(pairs)[k]) &&
        (forall j :: i < j < |pairs| ==> pairs[j].0 != k)
  {
    if pairs != [] {
      var n := |pairs| - 1;
      FromPairsLastWins(pairs[..n], k);
      if pairs[n].0 != k {
        if k in FromPairs(pairs[..n]) {
          var i :| 0 <= i < n && pairs[..n][i] == (k, FromPairs(pairs[..n])[k]) &&
            (forall j :: i < j < n ==> pairs[..n][j].0 != k);
          assert pairs[i] == (k, FromPairs(pairs)[k]);
        }
        assert (exists i :: 0 <= i < n && pairs[..n][i].0 == k) <==>
          (exists i :: 0 <= i < |pairs| && pairs[i].0 == k) by {
          if exists i :: 0 <= i < |pairs| && pairs[i].0 == k {
            var i :| 0 <= i < |pairs| && pairs[i].0 == k;
            assert pairs[..n][i].0 == k;
          }
        }
      }
    }
  }

  /** The value of k in m, or the default when k is absent. */
  function Lookup<K, V>(m: map<K, V>, k: K, default: V): V
  {
    if k in m then m[k] else default
  }

  class Map<K(==), V> {
    /** The value assumed for keys that are not in the map, if there is one. */
    const default: Option<V>
    /** Whether contains() is true for every key. */
    const alwaysContain: bool
    var data: map<K, V>

    ghost predicate Valid()
      reads this
    {
      alwaysContain ==> default.Some?
    }

    constructor (default: Option<V>, alwaysContain: bool)
      requires alwaysContain ==> default.Some?
      ensures Valid() && this.default == default && this.alwaysContain == alwaysContain
      ensures data == map[]
    {
      this.default := default;
      this.alwaysContain := alwaysContain;
      data := map[];
    }

    /** Construction from initial values, set one after the other. */
    constructor FromValues(default: Option<V>, alwaysContain: bool, initial: seq<(K, V)>)
      requires alwaysContain ==> default.Some?
      ensures Valid() && this.default == default && this.alwaysContain == alwaysContain
      ensures data == FromPairs(initial)
    {
      this.default := default;
      this.alwaysContain := alwaysContain;
      data := map[];
      new;
      var i := 0;
      while i < |initial|
        invariant 0 <= i <= |initial|
        invariant data == FromPairs(initial[..i])
      {
        assert initial[..i + 1][..i] == initial[..i];
        Set(initial[i].0, initial[i].1);
        i := i + 1;
      }
      assert initial[..i] == initial;
    }

    function Contains(k: K): (r: bool)
      reads this
      ensures r <==> alwaysContain || k in data
    {
      alwaysContain || k in data
    }

    /** operator[]: the value set for k, or the default if none is. */
    function Get(k: K): (v: V)
      reads this
      requires default.Some? || k in data
      ensures k in data ==> v == data[k]
      ensures k !in data ==> v == default.value
    {
      if k in data then data[k] else default.value
    }

    method Set(k: K, v: V)
      modifies this
      ensures data == old(data)[k := v]
      ensures Get(k) == v
    {
      data := data[k := v];
    }

    method Remove(k: K)
      modifies this
      ensures data == old(data) - {k}
      ensures default.Some? ==> Get(k) == default.value
    {
      data := data - {k};
    }
  }

  /**
   * The specialisation for dense keys with a default that every key contains:
   * a vector indexed by the key, grown with the default as needed.
   */
  class DenseMap<V> {
    const default: V
    var data: seq<V>

    constructor (default: V)
      ensures this.default == default && data == []
    {
      this.default := default;
      data := [];
    }

    constructor FromValues(default: V, initial: seq<(Dense, V)>)
      ensures this.default == default
      ensures forall k: Dense :: Get(k) == Lookup(FromPairs(initial), k, default)
    {
      this.default := default;
      data := [];
      new;
      var i := 0;
      while i < |initial|
        invariant 0 <= i <= |initial|
        invariant forall k: Dense :: Get(k) == Lookup(FromPairs(initial[..i]), k, default)
      {
        assert initial[..i + 1][..i] == initial[..i];
        Set(initial[i].0, initial[i].1);
        i := i + 1;
      }
      assert initial[..i] == initial;
    }

    function Contains(k: Dense): (r: bool)
      ensures r
    {
      true
    }

    function Get(k: Dense): (v: V)
      reads this
      ensures k.value < |data| ==> v == data[k.value]
      ensures k.value >= |data| ==> v == default
    {
      if k.value < |data| then data[k.value] else default
    }

    method Set(k: Dense, v: V)
      modifies this
      ensures |data| == if k.value < |old(data)| then |old(data)| else k.value + 1
      ensures forall j: Dense :: Get(j) == if j == k then v else old(Get(j))
    {
      if |data| <= k.value {
        data := data + seq(k.value + 1 - |data|, _ => default);
      }
      data := data[k.value := v];
    }

    method Remove(k: Dense)
      modifies this
      ensures |data| == |old(data)|
      ensures forall j: Dense :: Get(j) == if j == k then default else old(Get(j))
    {
      if k.value < |data| {
        data := data[k.value := default];
      }
    }
  }
}
