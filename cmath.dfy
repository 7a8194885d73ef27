/**
  The scalar substrate. Single-precision floats are modelled as real numbers;
  the library routines the renderer calls from <cmath>, the uint64-to-float
  conversion of the generator and division by zero are left uninterpreted:
  they are fields of a `Lib` value that every operation needing them takes
  as a parameter, and `Lib.Valid()` constrains them by range facts only.
*/
module CMath {

  /** std::numbers::pi_v<float>, the single-precision value nearest to pi. */
  const Pi: real := 3.1415927410125732

  datatype Lib = Lib(
    sqrt: real -> real,             // std::sqrt
    pow: (real, real) -> real,      // std::pow
    atan2: (real, real) -> real,    // std::atan2
    asin: real -> real,             // std::asin
    toUnit: bv64 -> real,           // float(x) / float(UINT64_MAX)
    divZero: real -> real)          // x / 0, whatever the hardware gives
  {
    /**
      The only facts the model relies on: sqrt is non-negative and monotone
      on non-negative numbers, positive on positive ones, fixes 0 and 1, and (as over the reals) squares
      back to its argument; the inverse trigonometric functions stay in
      their principal ranges; the generator's conversion to float lands in
      [0, 1], with 0 exactly for 0.
    */
    ghost predicate Valid() {
      && (forall x :: 0.0 <= x ==> 0.0 <= sqrt(x) && sqrt(x) * sqrt(x) == x)
      && (forall x, y :: 0.0 <= x <= y ==> sqrt(x) <= sqrt(y))
      && (forall x :: 0.0 < x ==> 0.0 < sqrt(x))
      && sqrt(0.0) == 0.0 && sqrt(1.0) == 1.0
      && (forall y, x :: -Pi <= atan2(y, x) <= Pi)
      && (forall y :: -Pi / 2.0 <= asin(y) <= Pi / 2.0)
      && (forall s :: 0.0 <= toUnit(s) <= 1.0)
      && toUnit(0) == 0.0
    }
  }

  /** Float division: the quotient, or an unspecified value when dividing by zero. */
  function Div(lib: Lib, x: real, y: real): (q: real)
    ensures y != 0.0 ==> q * y == x
  {
    if y != 0.0 then x / y else lib.divZero(x)
  }

  /** static_cast<int> of a float: truncation toward zero. */
  function Trunc(x: real): (n: int)
    ensures x >= 0.0 ==> 0 <= n && n as real <= x < n as real + 1.0
    ensures x < 0.0 ==> n <= 0 && n as real - 1.0 < x <= n as real
  {
    if x >= 0.0 then x.Floor else -((-x).Floor)
  }

  /** std::abs. */
  function Abs(x: real): (r: real)
    ensures r >= 0.0 && (r == x || r == -x)
  {
    if x < 0.0 then -x else x
  }

  /** std::min(a, b), which returns `a` unless `b < a`. */
  function Min(a: real, b: real): (m: real)
    ensures m <= a && m <= b && (m == a || m == b)
  {
    if b < a then b else a
  }

  /** std::max(a, b), which returns `a` unless `a < b`. */
  function Max(a: real, b: real): (m: real)
    ensures a <= m && b <= m && (m == a || m == b)
  {
    if a < b then b else a
  }

  /** Over the model's library, the square root of a value in [0, 1] is in [0, 1] and fixes 0 and 1. */
  lemma SqrtUnitInterval(lib: Lib, x: real)
    requires lib.Valid() && 0.0 <= x <= 1.0
    ensures 0.0 <= lib.sqrt(x) <= 1.0
    ensures x == 0.0 ==> lib.sqrt(x) == 0.0
    ensures x == 1.0 ==> lib.sqrt(x) == 1.0
  {
    assert lib.sqrt(0.0) <= lib.sqrt(x) <= lib.sqrt(1.0);
  }

}
