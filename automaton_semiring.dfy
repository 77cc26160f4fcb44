// The semiring of shared automata (include/flipsta/automaton_semiring.hpp):
// zero is the null automaton, one the final state with weight one, times is
// concatenate and plus is union_.  Because equal weight functions give equal
// values (SharedAutomaton.Canonical), the laws the header declares hold as
// equalities of values, which is what operator== compares.
module AutomatonSemiring {
  import opened Wrappers
  import opened Tropical
  import opened SharedAutomaton

  /** The default constructor: zero, the null automaton. */
  function SemiringZero(): (r: Automaton)
    ensures WellFormed(r)
    ensures forall ks :: WeightOf(r, ks) == Zero
  {
    Null
  }

  /** The constructor from a weight: the final state with that start weight, null for a zero weight. */
  function FromWeight(w: Weight): (r: Automaton)
    ensures WellFormed(r)
    ensures forall ks :: WeightOf(r, ks) == if ks == [] then w else Zero
  {
    var r := MakeShared(w, Some(FinalState));
    forall ks ensures WeightOf(r, ks) == if ks == [] then w else Zero {
      FinalStateWeight(ks);
    }
    r
  }

  /** The final state gives the empty sequence one and every other sequence zero. */
  lemma FinalStateWeight(ks: seq<Key>)
    ensures StateWeight(FinalState, ks) == if ks == [] then One else Zero
  {
  }

  /** unityState: final weight zero and a single arc with key to the final state. */
  function UnityState(key: Key): State
  {
    State(Zero, [(key, Shared(One, FinalState))])
  }

  /**
   * The constructor from a weight and a symbol: the automaton that gives the
   * sequence [key] that weight and every other sequence zero.  The source
   * asserts the result is not null, so the weight is not zero.
   */
  function FromSymbol(w: Weight, key: Key): (r: Automaton)
    requires w != Zero
    ensures WellFormed(r) && r.Shared?
    ensures forall ks :: WeightOf(r, ks) == if ks == [key] then w else Zero
  {
    var r := MakeShared(w, Some(UnityState(key)));
    assert StateWellFormed(UnityState(key)) by {
      assert SumFrom(Zero, UnityState(key).arcs) == Plus(Zero, One);
    }
    forall ks ensures WeightOf(r, ks) == if ks == [key] then w else Zero {
      UnityWeight(key, ks);
    }
    r
  }

  lemma UnityWeight(key: Key, ks: seq<Key>)
    ensures StateWeight(UnityState(key), ks) == if ks == [key] then One else Zero
  {
    var arcs := UnityState(key).arcs;
    if ks != [] {
      if ks[0] == key {
        FinalStateWeight(ks[1..]);
        assert ks == [key] <==> ks[1..] == [];
        assert StateWeight(UnityState(key), ks) == WeightOf(Shared(One, FinalState), ks[1..]);
      } else {
        assert arcs[1..] == [];
        assert ArcAt(arcs, ks[0]) == Null;
      }
    }
  }

  /** times: concatenate. */
  function Product(left: Automaton, right: Automaton): Automaton
  {
    Concatenate(left, right)
  }

  /** plus: union_. */
  function Sum(left: Automaton, right: Automaton): Automaton
  {
    Union(left, right)
  }

  /** The identity of times: the final state with weight one. */
  function TimesIdentity(): Automaton
  {
    FromWeight(One)
  }

  /** equal: the automata compare equal. */
  predicate Equal(left: Automaton, right: Automaton)
  {
    left == right
  }

  /** is_annihilator for times: the automaton is null. */
  predicate IsAnnihilator(a: Automaton)
  {
    IsNull(a)
  }

  // The meaning of the operations, and of equality.

  /** operator== on well-formed automata compares the weights they give every sequence. */
  lemma EqualMeansSameWeights(left: Automaton, right: Automaton)
    requires WellFormed(left) && WellFormed(right)
    ensures Equal(left, right) ==> forall ks :: WeightOf(left, ks) == WeightOf(right, ks)
    ensures (forall ks :: WeightOf(left, ks) == WeightOf(right, ks)) ==> Equal(left, right)
  {
    if forall ks :: WeightOf(left, ks) == WeightOf(right, ks) {
      Canonical(left, right);
    }
  }

  /** Only zero is an annihilator: a well-formed automaton is null exactly when it gives every sequence zero. */
  lemma AnnihilatorMeansZero(a: Automaton)
    requires WellFormed(a)
    ensures IsAnnihilator(a) <==> a == SemiringZero()
    ensures IsAnnihilator(a) <==> forall ks :: WeightOf(a, ks) == Zero
  {
    if a.Shared? {
      var ks := Witness(a);
    }
  }

  lemma ProductMeaning(left: Automaton, right: Automaton)
    requires WellFormed(left) && WellFormed(right)
    ensures WellFormed(Product(left, right))
    ensures forall ks :: WeightOf(Product(left, right), ks) == ProductWeight(left, right, ks)
  {
    ConcatenateWellFormed(left, right);
    forall ks ensures WeightOf(Product(left, right), ks) == ProductWeight(left, right, ks) {
      ConcatenateWeight(left, right, ks);
    }
  }

  // Splitting sums are minima: at most each of their terms, and equal to one of them.

  function Term(left: Automaton, right: Automaton, ks: seq<Key>, j: nat): Weight
    requires j <= |ks|
  {
    Times(WeightOf(left, ks[..j]), WeightOf(right, ks[j..]))
  }

  lemma {:induction false} SplitSumAtMost(left: Automaton, right: Automaton, ks: seq<Key>, n: nat, j: nat)
    requires j < n <= |ks| + 1
    ensures AtMost(SplitSum(left, right, ks, n), Term(left, right, ks, j))
  {
    if j < n - 1 {
      SplitSumAtMost(left, right, ks, n - 1, j);
    }
  }

  lemma {:induction false} SplitSumAttained(left: Automaton, right: Automaton, ks: seq<Key>, n: nat) returns (j: nat)
    requires 0 < n <= |ks| + 1
    ensures j < n && SplitSum(left, right, ks, n) == Term(left, right, ks, j)
  {
    if n == 1 || SplitSum(left, right, ks, n) == Term(left, right, ks, n - 1) {
      j := n - 1;
      assert SplitSum(left, right, ks, 0) == Zero;
    } else {
      j := SplitSumAttained(left, right, ks, n - 1);
    }
  }

  lemma TimesMonotone(x: Weight, y: Weight, z: Weight)
    requires AtMost(x, y)
    ensures AtMost(Times(x, z), Times(y, z)) && AtMost(Times(z, x), Times(z, y))
  {
  }

  /** A splitting sum over all splits is at most its term at split j. */
  lemma ProductAtMost(left: Automaton, right: Automaton, ks: seq<Key>, j: nat)
    requires j <= |ks|
    ensures AtMost(ProductWeight(left, right, ks), Times(WeightOf(left, ks[..j]), WeightOf(right, ks[j..])))
  {
    SplitSumAtMost(left, right, ks, |ks| + 1, j);
  }

  /** ... and equal to the term at some split. */
  lemma ProductAttained(left: Automaton, right: Automaton, ks: seq<Key>) returns (j: nat)
    ensures j <= |ks| && ProductWeight(left, right, ks) == Times(WeightOf(left, ks[..j]), WeightOf(right, ks[j..]))
  {
    j := SplitSumAttained(left, right, ks, |ks| + 1);
  }

  /** One way round the associativity of concatenation: (a b) c weighs at most a (b c). */
  lemma ProductAssociatesAtMost(a: Automaton, b: Automaton, c: Automaton, ks: seq<Key>)
    requires WellFormed(a) && WellFormed(b) && WellFormed(c)
    ensures AtMost(ProductWeight(Product(a, b), c, ks), ProductWeight(a, Product(b, c), ks))
  {
    var ab, bc := Product(a, b), Product(b, c);
    var m := ProductAttained(a, bc, ks);
    var rest := ks[m..];
    ConcatenateWeight(b, c, rest);
    var j := ProductAttained(b, c, rest);
    var n := m + j;
    assert rest[..j] == ks[m..n] && rest[j..] == ks[n..];
    var wa, wb, wc := WeightOf(a, ks[..m]), WeightOf(b, ks[m..n]), WeightOf(c, ks[n..]);
    assert ProductWeight(a, bc, ks) == Times(wa, Times(wb, wc));
    var front := ks[..n];
    ProductAtMost(ab, c, ks, n);
    ConcatenateWeight(a, b, front);
    ProductAtMost(a, b, front, m);
    assert front[..m] == ks[..m] && front[m..] == ks[m..n];
    var wab := WeightOf(ab, front);
    assert AtMost(wab, Times(wa, wb));
    TimesMonotone(wab, Times(wa, wb), wc);
    TimesAssociates(wa, wb, wc);
  }

  /** The other way round: a (b c) weighs at most (a b) c. */
  lemma ProductAssociatesAtLeast(a: Automaton, b: Automaton, c: Automaton, ks: seq<Key>)
    requires WellFormed(a) && WellFormed(b) && WellFormed(c)
    ensures AtMost(ProductWeight(a, Product(b, c), ks), ProductWeight(Product(a, b), c, ks))
  {
    var ab, bc := Product(a, b), Product(b, c);
    var n := ProductAttained(ab, c, ks);
    var front := ks[..n];
    ConcatenateWeight(a, b, front);
    var m := ProductAttained(a, b, front);
    assert front[..m] == ks[..m] && front[m..] == ks[m..n];
    var wa, wb, wc := WeightOf(a, ks[..m]), WeightOf(b, ks[m..n]), WeightOf(c, ks[n..]);
    assert ProductWeight(ab, c, ks) == Times(Times(wa, wb), wc);
    var rest := ks[m..];
    ProductAtMost(a, bc, ks, m);
    ConcatenateWeight(b, c, rest);
    ProductAtMost(b, c, rest, n - m);
    assert rest[..n - m] == ks[m..n] && rest[n - m..] == ks[n..];
    var wbc := WeightOf(bc, rest);
    assert AtMost(wbc, Times(wb, wc));
    TimesMonotone(wbc, Times(wb, wc), wa);
    TimesAssociates(wa, wb, wc);
  }

  /** times is associative, as the header declares. */
  lemma ProductAssociates(a: Automaton, b: Automaton, c: Automaton)
    requires WellFormed(a) && WellFormed(b) && WellFormed(c)
    ensures Product(Product(a, b), c) == Product(a, Product(b, c))
  {
    ProductMeaning(a, b);
    ProductMeaning(b, c);
    ProductMeaning(Product(a, b), c);
    ProductMeaning(a, Product(b, c));
    forall ks ensures WeightOf(Product(Product(a, b), c), ks) == WeightOf(Product(a, Product(b, c)), ks) {
      ProductAssociatesAtMost(a, b, c, ks);
      ProductAssociatesAtLeast(a, b, c, ks);
    }
    Canonical(Product(Product(a, b), c), Product(a, Product(b, c)));
  }

  /** plus is commutative, as the header declares. */
  lemma SumCommutes(a: Automaton, b: Automaton)
    requires WellFormed(a) && WellFormed(b)
    ensures Sum(a, b) == Sum(b, a)
  {
    UnionProperties(a, b);
    UnionProperties(b, a);
    forall ks ensures WeightOf(Sum(a, b), ks) == WeightOf(Sum(b, a), ks) {
      PlusCommutes(WeightOf(a, ks), WeightOf(b, ks));
    }
    Canonical(Sum(a, b), Sum(b, a));
  }

  /** plus is associative, as the header declares. */
  lemma SumAssociates(a: Automaton, b: Automaton, c: Automaton)
    requires WellFormed(a) && WellFormed(b) && WellFormed(c)
    ensures Sum(Sum(a, b), c) == Sum(a, Sum(b, c))
  {
    UnionProperties(a, b);
    UnionProperties(b, c);
    UnionProperties(Sum(a, b), c);
    UnionProperties(a, Sum(b, c));
    forall ks ensures WeightOf(Sum(Sum(a, b), c), ks) == WeightOf(Sum(a, Sum(b, c)), ks) {
      PlusAssociates(WeightOf(a, ks), WeightOf(b, ks), WeightOf(c, ks));
    }
    Canonical(Sum(Sum(a, b), c), Sum(a, Sum(b, c)));
  }

  /** Zero is the identity of plus. */
  lemma ZeroIsSumIdentity(a: Automaton)
    requires WellFormed(a)
    ensures Sum(SemiringZero(), a) == a && Sum(a, SemiringZero()) == a
  {
  }

  /** Zero annihilates times on either side. */
  lemma ZeroAnnihilates(a: Automaton)
    ensures Product(SemiringZero(), a) == SemiringZero() && Product(a, SemiringZero()) == SemiringZero()
  {
  }

  lemma {:induction false} SplitSumOneOnRight(a: Automaton, ks: seq<Key>, n: nat)
    requires n <= |ks|
    ensures SplitSum(a, TimesIdentity(), ks, n) == Zero
  {
    if n > 0 {
      SplitSumOneOnRight(a, ks, n - 1);
      assert ks[n - 1..] != [];
    }
  }

  /** The final state with weight one is the identity of times, on either side. */
  lemma OneIsProductIdentity(a: Automaton)
    requires WellFormed(a)
    ensures Product(TimesIdentity(), a) == a && Product(a, TimesIdentity()) == a
  {
    OneIsLeftIdentity(a);
    OneIsRightIdentity(a);
  }

  lemma OneIsLeftIdentity(a: Automaton)
    requires WellFormed(a)
    ensures Product(TimesIdentity(), a) == a
  {
    var one := TimesIdentity();
    ProductMeaning(one, a);
    forall ks ensures WeightOf(Product(one, a), ks) == WeightOf(a, ks) {
      SplitSumOneOnLeft(a, ks, |ks| + 1);
    }
    Canonical(Product(one, a), a);
  }

  lemma {:induction false} SplitSumOneOnLeft(a: Automaton, ks: seq<Key>, n: nat)
    requires 1 <= n <= |ks| + 1
    ensures SplitSum(TimesIdentity(), a, ks, n) == WeightOf(a, ks)
  {
    var one, w := TimesIdentity(), WeightOf(a, ks);
    if n == 1 {
      assert ks[..0] == [] && ks[0..] == ks;
      assert WeightOf(one, []) == One;
      assert SplitSum(one, a, ks, 1) == Plus(Zero, Times(One, w));
      Identities(w);
    } else {
      SplitSumOneOnLeft(a, ks, n - 1);
      var p, s := ks[..n - 1], ks[n - 1..];
      assert p != [] by {
        assert |p| == n - 1;
      }
      assert WeightOf(one, p) == Zero;
      assert SplitSum(one, a, ks, n) == Plus(w, Times(Zero, WeightOf(a, s)));
      Identities(WeightOf(a, s));
      Identities(w);
    }
  }

  lemma OneIsRightIdentity(a: Automaton)
    requires WellFormed(a)
    ensures Product(a, TimesIdentity()) == a
  {
    var one := TimesIdentity();
    ProductMeaning(a, one);
    forall ks ensures WeightOf(Product(a, one), ks) == WeightOf(a, ks) {
      RightOneWeight(a, ks);
    }
    Canonical(Product(a, one), a);
  }

  lemma RightOneWeight(a: Automaton, ks: seq<Key>)
    ensures ProductWeight(a, TimesIdentity(), ks) == WeightOf(a, ks)
  {
    var one, w := TimesIdentity(), WeightOf(a, ks);
    SplitSumOneOnRight(a, ks, |ks|);
    assert ks[..|ks|] == ks && ks[|ks|..] == [];
    assert WeightOf(one, []) == One;
    assert ProductWeight(a, one, ks) == Plus(Zero, Times(w, One));
    Identities(w);
  }

  /** Splitting sums distribute over a union on the right. */
  lemma {:induction false} SplitSumOfUnionOnRight(a: Automaton, b: Automaton, c: Automaton, ks: seq<Key>, n: nat)
    requires WellFormed(b) && WellFormed(c) && n <= |ks| + 1
    ensures SplitSum(a, Sum(b, c), ks, n) == Plus(SplitSum(a, b, ks, n), SplitSum(a, c, ks, n))
  {
    if n > 0 {
      SplitSumOfUnionOnRight(a, b, c, ks, n - 1);
      UnionProperties(b, c);
      var p, s := ks[..n - 1], ks[n - 1..];
      Distributes(WeightOf(a, p), WeightOf(b, s), WeightOf(c, s));
      PlusInterchange(SplitSum(a, b, ks, n - 1), SplitSum(a, c, ks, n - 1),
        Times(WeightOf(a, p), WeightOf(b, s)), Times(WeightOf(a, p), WeightOf(c, s)));
    }
  }

  /** Splitting sums distribute over a union on the left. */
  lemma {:induction false} SplitSumOfUnionOnLeft(a: Automaton, b: Automaton, c: Automaton, ks: seq<Key>, n: nat)
    requires WellFormed(a) && WellFormed(b) && n <= |ks| + 1
    ensures SplitSum(Sum(a, b), c, ks, n) == Plus(SplitSum(a, c, ks, n), SplitSum(b, c, ks, n))
  {
    if n > 0 {
      SplitSumOfUnionOnLeft(a, b, c, ks, n - 1);
      UnionProperties(a, b);
      var p, s := ks[..n - 1], ks[n - 1..];
      Distributes(WeightOf(a, p), WeightOf(b, p), WeightOf(c, s));
      PlusInterchange(SplitSum(a, c, ks, n - 1), SplitSum(b, c, ks, n - 1),
        Times(WeightOf(a, p), WeightOf(c, s)), Times(WeightOf(b, p), WeightOf(c, s)));
    }
  }

  lemma PlusInterchange(w: Weight, x: Weight, y: Weight, z: Weight)
    ensures Plus(Plus(w, x), Plus(y, z)) == Plus(Plus(w, y), Plus(x, z))
  {
  }

  /** times distributes over plus from the left: the header declares a left semiring. */
  lemma ProductDistributesLeft(a: Automaton, b: Automaton, c: Automaton)
    requires WellFormed(a) && WellFormed(b) && WellFormed(c)
    ensures Product(a, Sum(b, c)) == Sum(Product(a, b), Product(a, c))
  {
    UnionProperties(b, c);
    ProductMeaning(a, Sum(b, c));
    ProductMeaning(a, b);
    ProductMeaning(a, c);
    UnionProperties(Product(a, b), Product(a, c));
    forall ks ensures WeightOf(Product(a, Sum(b, c)), ks) == WeightOf(Sum(Product(a, b), Product(a, c)), ks) {
      SplitSumOfUnionOnRight(a, b, c, ks, |ks| + 1);
    }
    Canonical(Product(a, Sum(b, c)), Sum(Product(a, b), Product(a, c)));
  }

  /** With tropical weights, which commute, times also distributes from the right. */
  lemma ProductDistributesRight(a: Automaton, b: Automaton, c: Automaton)
    requires WellFormed(a) && WellFormed(b) && WellFormed(c)
    ensures Product(Sum(a, b), c) == Sum(Product(a, c), Product(b, c))
  {
    UnionProperties(a, b);
    ProductMeaning(Sum(a, b), c);
    ProductMeaning(a, c);
    ProductMeaning(b, c);
    UnionProperties(Product(a, c), Product(b, c));
    forall ks ensures WeightOf(Product(Sum(a, b), c), ks) == WeightOf(Sum(Product(a, c), Product(b, c)), ks) {
      SplitSumOfUnionOnLeft(a, b, c, ks, |ks| + 1);
    }
    Canonical(Product(Sum(a, b), c), Sum(Product(a, c), Product(b, c)));
  }

  /** A weight times a symbol: the symbol's automaton with the product as its start weight. */
  lemma WeightTimesSymbol(v: Weight, w: Weight, key: Key)
    requires v != Zero && w != Zero
    ensures Product(FromWeight(v), FromSymbol(w, key)) == FromSymbol(Times(v, w), key)
  {
  }

  /** Symbols times symbols: the two-symbol sequence with the product weight. */
  lemma SymbolsConcatenate(v: Weight, w: Weight, k: Key, l: Key)
    requires v != Zero && w != Zero
    ensures forall ks :: WeightOf(Product(FromSymbol(v, k), FromSymbol(w, l)), ks) == if ks == [k, l] then Times(v, w) else Zero
  {
    var a, b := FromSymbol(v, k), FromSymbol(w, l);
    ProductMeaning(a, b);
    forall ks ensures ProductWeight(a, b, ks) == if ks == [k, l] then Times(v, w) else Zero {
      SymbolSplitSum(v, w, k, l, ks, |ks| + 1);
    }
  }

  lemma {:induction false} SymbolSplitSum(v: Weight, w: Weight, k: Key, l: Key, ks: seq<Key>, n: nat)
    requires v != Zero && w != Zero && n <= |ks| + 1
    ensures SplitSum(FromSymbol(v, k), FromSymbol(w, l), ks, n) == if ks == [k, l] && n >= 2 then Times(v, w) else Zero
  {
    if n > 0 {
      SymbolSplitSum(v, w, k, l, ks, n - 1);
      var p, s := ks[..n - 1], ks[n - 1..];
      assert p + s == ks;
      if ks == [k, l] && n == 2 {
        assert p == [k] && s == [l];
      }
    }
  }
}
