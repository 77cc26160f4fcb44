// Integer tropical weights: the concrete semiring with left division in which
// the shared automata of include/flipsta/shared_automaton.hpp are modelled.
// Plus is the minimum, times is addition, Zero is infinity and One is 0; the
// left division of a by b is a - b.
module Tropical {

  datatype Weight = Inf | Fin(cost: int)

  const Zero: Weight := Inf
  const One: Weight := Fin(0)

  /** The natural order of the semiring: a is at most b when a is the cheaper. */
  predicate AtMost(a: Weight, b: Weight)
  {
    b.Inf? || (a.Fin? && a.cost <= b.cost)
  }

  function Plus(a: Weight, b: Weight): (r: Weight)
    ensures r == a || r == b
    ensures AtMost(r, a) && AtMost(r, b)
    ensures r == Zero <==> a == Zero && b == Zero
  {
    match a
    case Inf => b
    case Fin(x) => if b.Fin? && b.cost < x then b else a
  }

  function Times(a: Weight, b: Weight): (r: Weight)
    ensures r == Zero <==> a == Zero || b == Zero
    ensures r.Fin? ==> r.cost == a.cost + b.cost
  {
    if a.Inf? || b.Inf? then Inf else Fin(a.cost + b.cost)
  }

  /**
   * Left division: the weight that b multiplies into a.  Dividing by Zero is
   * defined only for Zero, where the result is Zero.
   */
  function LeftDivide(a: Weight, b: Weight): (r: Weight)
    requires b == Zero ==> a == Zero
    ensures Times(b, r) == a
    ensures r == Zero <==> a == Zero
  {
    if a.Inf? then Inf else Fin(a.cost - b.cost)
  }

  lemma PlusCommutes(a: Weight, b: Weight)
    ensures Plus(a, b) == Plus(b, a)
  {
  }

  lemma PlusAssociates(a: Weight, b: Weight, c: Weight)
    ensures Plus(Plus(a, b), c) == Plus(a, Plus(b, c))
  {
  }

  lemma TimesAssociates(a: Weight, b: Weight, c: Weight)
    ensures Times(Times(a, b), c) == Times(a, Times(b, c))
  {
  }

  lemma TimesCommutes(a: Weight, b: Weight)
    ensures Times(a, b) == Times(b, a)
  {
  }

  lemma Identities(a: Weight)
    ensures Plus(Zero, a) == a && Plus(a, Zero) == a
    ensures Times(One, a) == a && Times(a, One) == a
    ensures Times(Zero, a) == Zero && Times(a, Zero) == Zero
  {
  }

  lemma Distributes(a: Weight, b: Weight, c: Weight)
    ensures Times(a, Plus(b, c)) == Plus(Times(a, b), Times(a, c))
    ensures Times(Plus(a, b), c) == Plus(Times(a, c), Times(b, c))
  {
  }

  /** Division by a common factor distributes over sums. */
  lemma DivideDistributes(a: Weight, b: Weight, n: Weight)
    requires n == Zero ==> a == Zero && b == Zero
    ensures LeftDivide(Plus(a, b), n) == Plus(LeftDivide(a, n), LeftDivide(b, n))
  {
  }

  /** Multiplying back by what was divided out restores the quotient's operand. */
  lemma DivideCancels(a: Weight, b: Weight)
    requires b == Zero ==> a == Zero
    ensures Times(b, LeftDivide(a, b)) == a
    ensures b != Zero ==> LeftDivide(b, b) == One
  {
  }
}
