/**
 The three distance metrics (DistanceMetric\EuclideanDistance, ManhattanDistance,
 ChebyshevDistance). Each loops over the indices of its FIRST argument only and
 reads the second with PHP's missing-element rule (`Vectors.At`); the calibration
 relies on this when it measures a 3-vector against a 6-component state.
 */
module DistanceMetric {
  import opened Wrappers
  import opened RealMath
  import opened Vectors

  /** The per-coordinate difference the metrics are built from. */
  function Diff(a: Vec, b: Vec, i: nat): real
    requires i < |a|
  {
    a[i] - At(b, i)
  }

  /** Σ_{i < n} (a_i - b_i)², accumulated in index order. */
  function SumSquares(a: Vec, b: Vec, n: nat): (r: real)
    requires n <= |a|
    ensures r >= 0.0
  {
    if n == 0 then 0.0 else SumSquares(a, b, n - 1) + Diff(a, b, n - 1) * Diff(a, b, n - 1)
  }

  /** Σ_{i < n} |a_i - b_i|, accumulated in index order. */
  function SumAbs(a: Vec, b: Vec, n: nat): (r: real)
    requires n <= |a|
    ensures r >= 0.0
  {
    if n == 0 then 0.0 else SumAbs(a, b, n - 1) + Abs(Diff(a, b, n - 1))
  }

  /** max_{i < n} |a_i - b_i|: bounds every term and is attained by one. */
  function MaxAbs(a: Vec, b: Vec, n: nat): (r: real)
    requires 1 <= n <= |a|
    ensures forall i :: 0 <= i < n ==> Abs(Diff(a, b, i)) <= r
    ensures exists i :: 0 <= i < n && r == Abs(Diff(a, b, i))
  {
    if n == 1 then Abs(Diff(a, b, 0))
    else
      var m := MaxAbs(a, b, n - 1);
      var d := Abs(Diff(a, b, n - 1));
      if m < d then d else m
  }

  /** EuclideanDistance::calc. */
  function Euclidean(e: Elementary, a: Vec, b: Vec): real {
    e.sqrt(SumSquares(a, b, |a|))
  }

  /** ManhattanDistance::calc. */
  function Manhattan(a: Vec, b: Vec): (r: real)
    ensures r >= 0.0
    ensures |a| == 0 ==> r == 0.0
  {
    SumAbs(a, b, |a|)
  }

  /** ChebyshevDistance::calc; PHP's max() of an empty list throws, which is None here. */
  function Chebyshev(a: Vec, b: Vec): (r: Option<real>)
    ensures r.Some? <==> |a| > 0
    ensures r.Some? ==> forall i :: 0 <= i < |a| ==> Abs(Diff(a, b, i)) <= r.value
    ensures r.Some? ==> exists i :: 0 <= i < |a| && r.value == Abs(Diff(a, b, i))
  {
    if |a| == 0 then None else Some(MaxAbs(a, b, |a|))
  }

  /** Equal-length vectors are equal exactly when no coordinate differs. */
  ghost predicate Same(a: Vec, b: Vec, n: nat)
    requires n <= |a| && n <= |b|
  {
    forall i :: 0 <= i < n ==> a[i] == b[i]
  }

  lemma {:induction false} SumSquaresZeroIff(a: Vec, b: Vec, n: nat)
    requires n <= |a| && n <= |b|
    ensures SumSquares(a, b, n) == 0.0 <==> Same(a, b, n)
  {
    if n > 0 {
      SumSquaresZeroIff(a, b, n - 1);
      var d := Diff(a, b, n - 1);
      if d * d == 0.0 {
        SquareZero(d);
      }
    }
  }

  lemma {:induction false} SumSquaresSymmetric(a: Vec, b: Vec, n: nat)
    requires n <= |a| && n <= |b|
    ensures SumSquares(a, b, n) == SumSquares(b, a, n)
  {
    if n > 0 {
      SumSquaresSymmetric(a, b, n - 1);
      assert Diff(a, b, n - 1) * Diff(a, b, n - 1) == Diff(b, a, n - 1) * Diff(b, a, n - 1);
    }
  }

  /** Euclidean: non-negative, and its square is the sum of squared differences. */
  lemma EuclideanSquared(e: Elementary, a: Vec, b: Vec)
    requires Valid(e)
    ensures Euclidean(e, a, b) >= 0.0
    ensures Euclidean(e, a, b) * Euclidean(e, a, b) == SumSquares(a, b, |a|)
  {
  }

  /** Euclidean: zero exactly between equal points. */
  lemma EuclideanZeroIff(e: Elementary, a: Vec, b: Vec)
    requires Valid(e) && |a| == |b|
    ensures Euclidean(e, a, b) == 0.0 <==> a == b
  {
    SumSquaresZeroIff(a, b, |a|);
    SqrtZeroIff(e, SumSquares(a, b, |a|));
  }

  lemma EuclideanSymmetric(e: Elementary, a: Vec, b: Vec)
    requires |a| == |b|
    ensures Euclidean(e, a, b) == Euclidean(e, b, a)
  {
    SumSquaresSymmetric(a, b, |a|);
  }

  /** A zero-length first point is at distance 0 from anything. */
  lemma EuclideanEmpty(e: Elementary, a: Vec, b: Vec)
    requires Valid(e) && |a| == 0
    ensures Euclidean(e, a, b) == 0.0
  {
    SqrtZero(e);
  }

  lemma {:induction false} SumAbsZeroIff(a: Vec, b: Vec, n: nat)
    requires n <= |a| && n <= |b|
    ensures SumAbs(a, b, n) == 0.0 <==> Same(a, b, n)
  {
    if n > 0 {
      SumAbsZeroIff(a, b, n - 1);
    }
  }

  lemma {:induction false} SumAbsSymmetric(a: Vec, b: Vec, n: nat)
    requires n <= |a| && n <= |b|
    ensures SumAbs(a, b, n) == SumAbs(b, a, n)
  {
    if n > 0 {
      SumAbsSymmetric(a, b, n - 1);
    }
  }

  lemma {:induction false} SumAbsTriangle(a: Vec, b: Vec, c: Vec, n: nat)
    requires n <= |a| && n <= |b| && n <= |c|
    ensures SumAbs(a, b, n) <= SumAbs(a, c, n) + SumAbs(c, b, n)
  {
    if n > 0 {
      SumAbsTriangle(a, b, c, n - 1);
    }
  }

  /** Manhattan: zero exactly between equal points. */
  lemma ManhattanZeroIff(a: Vec, b: Vec)
    requires |a| == |b|
    ensures Manhattan(a, b) == 0.0 <==> a == b
  {
    SumAbsZeroIff(a, b, |a|);
  }

  lemma ManhattanSymmetric(a: Vec, b: Vec)
    requires |a| == |b|
    ensures Manhattan(a, b) == Manhattan(b, a)
  {
    SumAbsSymmetric(a, b, |a|);
  }

  lemma ManhattanTriangle(a: Vec, b: Vec, c: Vec)
    requires |a| == |b| == |c|
    ensures Manhattan(a, b) <= Manhattan(a, c) + Manhattan(c, b)
  {
    SumAbsTriangle(a, b, c, |a|);
  }

  /** Each term is at most the sum of all non-negative terms. */
  lemma {:induction false} TermLeSumAbs(a: Vec, b: Vec, n: nat, i: nat)
    requires i < n <= |a|
    ensures Abs(Diff(a, b, i)) <= SumAbs(a, b, n)
  {
    if i < n - 1 {
      TermLeSumAbs(a, b, n - 1, i);
    }
  }

  lemma {:induction false} TermLeSumSquares(a: Vec, b: Vec, n: nat, i: nat)
    requires i < n <= |a|
    ensures Diff(a, b, i) * Diff(a, b, i) <= SumSquares(a, b, n)
  {
    if i < n - 1 {
      TermLeSumSquares(a, b, n - 1, i);
    }
  }

  /** Chebyshev: zero exactly between equal non-empty points. */
  lemma ChebyshevZeroIff(a: Vec, b: Vec)
    requires |a| == |b| > 0
    ensures Chebyshev(a, b).value == 0.0 <==> a == b
  {
    var r := Chebyshev(a, b).value;
    if r == 0.0 {
      forall i | 0 <= i < |a|
        ensures a[i] == b[i]
      {
        assert Abs(Diff(a, b, i)) <= r;
      }
    }
    if a == b {
      var i :| 0 <= i < |a| && r == Abs(Diff(a, b, i));
    }
  }

  lemma ChebyshevSymmetric(a: Vec, b: Vec)
    requires |a| == |b|
    ensures Chebyshev(a, b) == Chebyshev(b, a)
  {
    if |a| > 0 {
      var r, s := Chebyshev(a, b).value, Chebyshev(b, a).value;
      var i :| 0 <= i < |a| && r == Abs(Diff(a, b, i));
      var j :| 0 <= j < |b| && s == Abs(Diff(b, a, j));
      assert r <= s by { assert Abs(Diff(b, a, i)) <= s; }
      assert s <= r by { assert Abs(Diff(a, b, j)) <= r; }
    }
  }

  /** Chebyshev is at most Manhattan for the same pair. */
  lemma ChebyshevLeManhattan(a: Vec, b: Vec)
    requires |a| > 0
    ensures Chebyshev(a, b).value <= Manhattan(a, b)
  {
    var i :| 0 <= i < |a| && Chebyshev(a, b).value == Abs(Diff(a, b, i));
    TermLeSumAbs(a, b, |a|, i);
  }

  /** Chebyshev is at most Euclidean for the same pair. */
  lemma ChebyshevLeEuclidean(e: Elementary, a: Vec, b: Vec)
    requires Valid(e) && |a| > 0
    ensures Chebyshev(a, b).value <= Euclidean(e, a, b)
  {
    var m := Chebyshev(a, b).value;
    var i :| 0 <= i < |a| && m == Abs(Diff(a, b, i));
    TermLeEuclidean(e, a, b, i);
  }

  lemma TermLeEuclidean(e: Elementary, a: Vec, b: Vec, i: nat)
    requires Valid(e) && i < |a|
    ensures Abs(Diff(a, b, i)) <= Euclidean(e, a, b)
  {
    var d, q := Diff(a, b, i), SumSquares(a, b, |a|);
    TermLeSumSquares(a, b, |a|, i);
    AbsBelowRoot(e, d, q);
  }

  /** |d| <= sqrt(q) whenever d² <= q. */
  lemma AbsBelowRoot(e: Elementary, d: real, q: real)
    requires Valid(e) && d * d <= q
    ensures Abs(d) <= e.sqrt(q)
  {
    var m := Abs(d);
    assert m * m == d * d;
    SqrtOfSquare(e, m);
    SqrtMonotone(e, m * m, q);
  }

  lemma {:induction false} SumSquaresLeSquaredSumAbs(a: Vec, b: Vec, n: nat)
    requires n <= |a|
    ensures SumSquares(a, b, n) <= SumAbs(a, b, n) * SumAbs(a, b, n)
  {
    if n > 0 {
      SumSquaresLeSquaredSumAbs(a, b, n - 1);
      var s, q := SumAbs(a, b, n - 1), SumSquares(a, b, n - 1);
      var d := Diff(a, b, n - 1);
      var x := Abs(d);
      NonNegativeProduct(s, x);
      SquareStep(s, x, q, d * d);
    }
  }

  /** The arithmetic of one step of SumSquaresLeSquaredSumAbs, on opaque numbers. */
  lemma SquareStep(s: real, x: real, q: real, dd: real)
    requires q <= s * s && s * x >= 0.0 && dd == x * x
    ensures q + dd <= (s + x) * (s + x)
  {
    assert (s + x) * (s + x) == s * s + 2.0 * (s * x) + x * x;
  }

  /** Euclidean is at most Manhattan for the same pair. */
  lemma EuclideanLeManhattan(e: Elementary, a: Vec, b: Vec)
    requires Valid(e)
    ensures Euclidean(e, a, b) <= Manhattan(a, b)
  {
    var s := SumAbs(a, b, |a|);
    SumSquaresLeSquaredSumAbs(a, b, |a|);
    SqrtMonotone(e, SumSquares(a, b, |a|), s * s);
    SqrtOfSquare(e, s);
  }
}
