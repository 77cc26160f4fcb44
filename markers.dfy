// The Zero and One markers of the Python binding's semiring
// (source/flipsta-python/semiring.hpp).  A Semiring value wraps a Python
// object; the markers Zero and One stand for two singleton objects.
// Comparison between any two of these compares the objects they stand for;
// plus and times are defined on the markers by a table, where One + One is
// missing.  Arithmetic on other wrapped objects is Python's own and is not
// part of this model.
module Markers {
  import opened Wrappers

  datatype Marker = Zero | One

  /** A Python object: one of the two marker singletons, or any other object. */
  datatype PythonObject<T> = Singleton(marker: Marker) | Object(value: T)

  /** An operand of a comparison: a marker itself, or a Semiring wrapping an object. */
  datatype Operand<T> = MarkerOperand(marker: Marker) | Semiring(underlying: PythonObject<T>)

  /** The object an operand stands for: a marker stands for its singleton. */
  function Underlying<T>(a: Operand<T>): (o: PythonObject<T>)
    ensures a.Semiring? ==> o == a.underlying
    ensures a.MarkerOperand? ==> o == Singleton(a.marker)
  {
    match a
    case MarkerOperand(m) => Singleton(m)
    case Semiring(o) => o
  }

  /**
   * operator==: two markers are equal when they are the same marker, a marker
   * and a Semiring when the wrapped object is that marker's singleton, two
   * Semirings when their objects are equal.
   */
  function Equal<T(==)>(a: Operand<T>, b: Operand<T>): bool
  {
    match (a, b)
    case (MarkerOperand(m), MarkerOperand(n)) => m == n
    case (MarkerOperand(m), Semiring(o)) => o == Singleton(m)
    case (Semiring(o), MarkerOperand(m)) => o == Singleton(m)
    case (Semiring(o), Semiring(p)) => o == p
  }

  /** operator!=, written out case by case as for operator==. */
  function NotEqual<T(==)>(a: Operand<T>, b: Operand<T>): bool
  {
    match (a, b)
    case (MarkerOperand(m), MarkerOperand(n)) => m != n
    case (MarkerOperand(m), Semiring(o)) => o != Singleton(m)
    case (Semiring(o), MarkerOperand(m)) => o != Singleton(m)
    case (Semiring(o), Semiring(p)) => o != p
  }

  /**
   * Every comparison compares the objects the operands stand for: Zero equals
   * Zero, One equals One, Zero and One differ, and a Semiring equals a marker
   * exactly when it wraps that marker's singleton.  != is the negation of ==.
   */
  lemma ComparisonsCompareObjects<T>(a: Operand<T>, b: Operand<T>)
    ensures Equal(a, b) <==> Underlying(a) == Underlying(b)
    ensures NotEqual(a, b) <==> !Equal(a, b)
  {
  }

  /** operator+ on the markers: the table has no entry for One + One. */
  function Plus<T>(a: Marker, b: Marker): Option<PythonObject<T>>
  {
    match (a, b)
    case (Zero, Zero) => Some(Singleton(b))
    case (Zero, One) => Some(Singleton(b))
    case (One, Zero) => Some(Singleton(a))
    case (One, One) => None
  }

  /** operator* on the markers. */
  function Times<T>(a: Marker, b: Marker): PythonObject<T>
  {
    match (a, b)
    case (Zero, Zero) => Singleton(a)
    case (Zero, One) => Singleton(a)
    case (One, Zero) => Singleton(b)
    case (One, One) => Singleton(b)
  }

  /** The Boolean reading of a marker: Zero is false, One is true. */
  function Truth(m: Marker): bool
  {
    m == One
  }

  function MarkerOf(b: bool): (m: Marker)
    ensures Truth(m) == b
  {
    if b then One else Zero
  }

  /**
   * The tables are the Boolean semiring: plus is "or" wherever it is defined,
   * and it is undefined exactly for One + One; times is "and".
   */
  lemma TablesAreBoolean<T>(a: Marker, b: Marker)
    ensures Plus<T>(a, b).None? <==> a == One && b == One
    ensures Plus<T>(a, b).Some? ==> Plus<T>(a, b).value == Singleton(MarkerOf(Truth(a) || Truth(b)))
    ensures Times<T>(a, b) == Singleton(MarkerOf(Truth(a) && Truth(b)))
  {
  }

  /** The identity of times: the One singleton wrapped. */
  function TimesIdentity<T>(): (o: PythonObject<T>)
    ensures o.Singleton? && forall m: Marker :: Times<T>(m, o.marker) == Singleton(m) && Times<T>(o.marker, m) == Singleton(m)
  {
    Singleton(One)
  }

  /** The identity of plus: the Zero singleton wrapped. */
  function PlusIdentity<T>(): (o: PythonObject<T>)
    ensures o.Singleton? && forall m: Marker :: Plus<T>(m, o.marker) == Some(Singleton(m)) && Plus<T>(o.marker, m) == Some(Singleton(m))
  {
    Singleton(Zero)
  }

  /** The annihilator of times: the Zero singleton wrapped. */
  function TimesAnnihilator<T>(): (o: PythonObject<T>)
    ensures o.Singleton? && forall m: Marker :: Times<T>(m, o.marker) == o && Times<T>(o.marker, m) == o
  {
    Singleton(Zero)
  }

  /** Plus, missing entry included, and times do not depend on the order of their operands. */
  lemma MarkersCommute<T>(a: Marker, b: Marker)
    ensures Plus<T>(a, b) == Plus<T>(b, a)
    ensures Times<T>(a, b) == Times<T>(b, a)
  {
  }
}
