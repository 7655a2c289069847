/**
 The Bernstein basis polynomial (BernsteinPolynomial::calc):
 B(i, n, t) = C(n, i) · t^i · (1 - t)^(n - i).
 */
module BernsteinPolynomial {
  import opened RealMath

  /** The binomial coefficient C(n, k) by Pascal's rule; zero when k > n. */
  function Binomial(n: nat, k: nat): nat {
    if k == 0 then 1 else if n == 0 then 0 else Binomial(n - 1, k - 1) + Binomial(n - 1, k)
  }

  function Factorial(n: nat): (r: nat)
    ensures r >= 1
  {
    if n == 0 then 1 else n * Factorial(n - 1)
  }

  /** PHP's x ** k for a natural exponent; 0 ** 0 is 1. */
  function Pow(x: real, k: nat): real {
    if k == 0 then 1.0 else x * Pow(x, k - 1)
  }

  /** BernsteinPolynomial::calc(i, n, t). */
  function Calc(i: nat, n: nat, t: real): real
    requires i <= n
  {
    Binomial(n, i) as real * Pow(t, i) * Pow(1.0 - t, n - i)
  }

  lemma {:induction false} BinomialAbove(n: nat, k: nat)
    requires k > n
    ensures Binomial(n, k) == 0
  {
    if n > 0 {
      BinomialAbove(n - 1, k - 1);
      BinomialAbove(n - 1, k);
    }
  }

  lemma {:induction false} BinomialDiagonal(n: nat)
    ensures Binomial(n, n) == 1
  {
    if n > 0 {
      BinomialDiagonal(n - 1);
      BinomialAbove(n - 1, n);
    }
  }

  /**
   Pascal's rule agrees with the factorial formula C(n, k) = n! / (k! (n - k)!)
   by which the combinations are counted.
   */
  lemma {:induction false} BinomialFactorial(n: nat, k: nat)
    requires k <= n
    ensures Binomial(n, k) * Factorial(k) * Factorial(n - k) == Factorial(n)
  {
    if k == 0 {
    } else if k == n {
      BinomialDiagonal(n);
    } else {
      BinomialFactorial(n - 1, k - 1);
      BinomialFactorial(n - 1, k);
      PascalStep(Binomial(n - 1, k - 1), Binomial(n - 1, k), k, n - k,
                 Factorial(k - 1), Factorial(n - k - 1), Factorial(n - 1));
    }
  }

  /** The arithmetic of one Pascal step of BinomialFactorial, on opaque numbers. */
  lemma PascalStep(a: int, b: int, k: int, m: int, fk1: int, fm1: int, f: int)
    requires a * fk1 * (m * fm1) == f
    requires b * (k * fk1) * fm1 == f
    ensures (a + b) * (k * fk1) * (m * fm1) == (k + m) * f
  {
    assert (a + b) * (k * fk1) * (m * fm1) == k * (a * fk1 * (m * fm1)) + m * (b * (k * fk1) * fm1);
  }

  /** C(n, k) = C(n, n - k). */
  lemma {:induction false} BinomialSymmetric(n: nat, k: nat)
    requires k <= n
    ensures Binomial(n, k) == Binomial(n, n - k)
  {
    if k == 0 {
      BinomialDiagonal(n);
    } else if k == n {
      BinomialDiagonal(n);
    } else {
      BinomialSymmetric(n - 1, k - 1);
      BinomialSymmetric(n - 1, k);
    }
  }

  lemma {:induction false} PowZero(k: nat)
    requires k > 0
    ensures Pow(0.0, k) == 0.0
  {
  }

  lemma {:induction false} PowOne(k: nat)
    ensures Pow(1.0, k) == 1.0
  {
    if k > 0 {
      PowOne(k - 1);
    }
  }

  lemma {:induction false} PowNonNegative(x: real, k: nat)
    requires x >= 0.0
    ensures Pow(x, k) >= 0.0
  {
    if k > 0 {
      PowNonNegative(x, k - 1);
      NonNegativeProduct(x, Pow(x, k - 1));
    }
  }

  /** At t = 0 only the first basis polynomial is non-zero, and it is 1. */
  lemma CalcAtZero(i: nat, n: nat)
    requires i <= n
    ensures Calc(i, n, 0.0) == if i == 0 then 1.0 else 0.0
  {
    PowOne(n - i);
    if i > 0 {
      PowZero(i);
    }
  }

  /** At t = 1 only the last basis polynomial is non-zero, and it is 1. */
  lemma CalcAtOne(i: nat, n: nat)
    requires i <= n
    ensures Calc(i, n, 1.0) == if i == n then 1.0 else 0.0
  {
    PowOne(i);
    if i < n {
      PowZero(n - i);
    } else {
      BinomialDiagonal(n);
    }
  }

  /** On [0, 1] every basis polynomial is non-negative. */
  lemma CalcNonNegative(i: nat, n: nat, t: real)
    requires i <= n && 0.0 <= t <= 1.0
    ensures Calc(i, n, t) >= 0.0
  {
    PowNonNegative(t, i);
    PowNonNegative(1.0 - t, n - i);
    NonNegativeProduct(Binomial(n, i) as real, Pow(t, i));
    NonNegativeProduct(Binomial(n, i) as real * Pow(t, i), Pow(1.0 - t, n - i));
  }

  /** B(i, n, t) = B(n - i, n, 1 - t). */
  lemma CalcSymmetric(i: nat, n: nat, t: real)
    requires i <= n
    ensures Calc(i, n, t) == Calc(n - i, n, 1.0 - t)
  {
    BinomialSymmetric(n, i);
    assert 1.0 - (1.0 - t) == t;
  }
}
