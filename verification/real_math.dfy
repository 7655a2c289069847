/**
 Elementary functions the engine calls (`sqrt`, `sin`, `cos`, `pi`). Dafny's reals
 have no such functions, so they are carried as an explicit parameter and only the
 facts in `Valid` are assumed of them. The lemmas below are the small facts of real
 arithmetic the rest of the model leans on.
 */
module RealMath {

  datatype Elementary = Elementary(sqrt: real -> real, sin: real -> real, cos: real -> real, pi: real)

  /** The only properties of the elementary functions the model relies on. */
  ghost predicate Valid(e: Elementary) {
    && (forall x :: x >= 0.0 ==> e.sqrt(x) >= 0.0 && e.sqrt(x) * e.sqrt(x) == x)
    && e.pi > 0.0
  }

  function Abs(x: real): real {
    if x < 0.0 then -x else x
  }

  function Min(a: real, b: real): real {
    if a < b then a else b
  }

  function Max(a: real, b: real): real {
    if a < b then b else a
  }

  lemma PositiveProduct(a: real, b: real)
    requires a > 0.0 && b > 0.0
    ensures a * b > 0.0
  {
  }

  lemma NonNegativeProduct(a: real, b: real)
    requires a >= 0.0 && b >= 0.0
    ensures a * b >= 0.0
  {
    if a > 0.0 && b > 0.0 {
      PositiveProduct(a, b);
    }
  }

  lemma ZeroProduct(a: real, b: real)
    requires a * b == 0.0 && a > 0.0
    ensures b == 0.0
  {
  }

  /** A square is zero only at zero. */
  lemma SquareZero(x: real)
    requires x * x == 0.0
    ensures x == 0.0
  {
    if x > 0.0 {
      ZeroProduct(x, x);
    } else if x < 0.0 {
      ZeroProduct(-x, x);
    }
  }

  /** For non-negative numbers, a < b implies a² < b². */
  lemma SquareLess(a: real, b: real)
    requires 0.0 <= a < b
    ensures a * a < b * b
  {
    PositiveProduct(b - a, b + a);
    assert b * b - a * a == (b - a) * (b + a);
  }

  /** For non-negative numbers, a² <= b² implies a <= b. */
  lemma SquareLeRoot(a: real, b: real)
    requires 0.0 <= a && 0.0 <= b && a * a <= b * b
    ensures a <= b
  {
    if b < a {
      SquareLess(b, a);
    }
  }

  lemma SqrtZero(e: Elementary)
    requires Valid(e)
    ensures e.sqrt(0.0) == 0.0
  {
    SquareZero(e.sqrt(0.0));
  }

  /** sqrt(x) is zero exactly when x is. */
  lemma SqrtZeroIff(e: Elementary, x: real)
    requires Valid(e) && x >= 0.0
    ensures e.sqrt(x) == 0.0 <==> x == 0.0
  {
    SqrtZero(e);
  }

  /** sqrt is monotone on the non-negative reals. */
  lemma SqrtMonotone(e: Elementary, x: real, y: real)
    requires Valid(e) && 0.0 <= x <= y
    ensures e.sqrt(x) <= e.sqrt(y)
  {
    SquareLeRoot(e.sqrt(x), e.sqrt(y));
  }

  /** A non-negative number is the square root of its square. */
  lemma SqrtOfSquare(e: Elementary, a: real)
    requires Valid(e) && a >= 0.0
    ensures e.sqrt(a * a) == a
  {
    var s := e.sqrt(a * a);
    assert s * s == a * a;
    SquareLeRoot(s, a);
    SquareLeRoot(a, s);
  }
}
