/**
 The least-squares fit of a cubic Bezier curve to the integrated trajectory at the end of
 PitchService::calc: the design matrix of cubic Bernstein values, the matrix-vector
 products, and why that matrix describes the curve De Casteljau's algorithm evaluates.
 */
module BezierFit {
  import opened Wrappers
  import opened Vectors
  import RealMath
  import Bernstein = BernsteinPolynomial
  import Bezier = DeCasteljausAlgorithm

  type Matrix = seq<seq<real>>

  /** Σ w[i]·v[i] over w's length, missing entries of v read as 0. */
  function Dot(w: seq<real>, v: Vec): real
    decreases |w|
  {
    if |w| == 0 then 0.0 else Dot(w[..|w| - 1], v) + w[|w| - 1] * At(v, |w| - 1)
  }

  /** Coordinate m of every point: `array_column(points, m)`, missing entries read as 0. */
  function Column(points: seq<Vec>, m: nat): (r: Vec)
    ensures |r| == |points|
  {
    seq(|points|, j requires 0 <= j < |points| => At(points[j], m))
  }

  /** The cubic basis values at t: [B(0,3,t), B(1,3,t), B(2,3,t), B(3,3,t)]. */
  function BasisRow(t: real): (r: seq<real>)
    ensures |r| == 4
  {
    seq(4, i requires 0 <= i < 4 => Bernstein.Calc(i, 3, t))
  }

  /** The parameter of row j, PHP's 1 / (count - 1) * j. */
  function Sample(count: nat, j: nat): real
    requires count != 1
  {
    1.0 / ((count - 1) as real) * (j as real)
  }

  /**
   The design matrix PitchService::calc builds: row j holds the cubic basis at j / (count - 1).
   A single state makes the division fail; no state gives the empty matrix.
   */
  function DesignMatrix(count: nat): (r: Option<Matrix>)
    ensures r.None? <==> count == 1
    ensures r.Some? ==> |r.value| == count && forall j :: 0 <= j < count ==> |r.value[j]| == 4
  {
    if count == 1 then None
    else Some(seq(count, j requires 0 <= j < count => BasisRow(Sample(count, j))))
  }

  /** MathPHP's vectorMultiply: row by row dot products. */
  function MatVec(p: Matrix, v: Vec): (r: Vec)
    ensures |r| == |p|
  {
    seq(|p|, k requires 0 <= k < |p| => Dot(p[k], v))
  }

  /**
   The least-squares step of PitchService::calc. The pseudo-inverse (BᵀB)⁻¹Bᵀ comes from
   MathPHP and enters as `pinv`
   (None when MathPHP fails, for instance on a singular BᵀB); its products with the x, y
   and z columns of the trajectory are the per-axis coefficients, and control point k
   gathers coefficient k of each axis. Fewer than four coefficients make `get` fail.
   */
  function FitControlPoints(pinv: Matrix -> Option<Matrix>, design: Matrix, sol: seq<Vec>): (r: Option<seq<Vec>>)
    ensures r.None? <==> pinv(design).None? || |pinv(design).value| < 4
    ensures r.Some? ==> |r.value| == 4 && Uniform(r.value, 3)
    ensures r.Some? ==> forall k, m :: 0 <= k < 4 && 0 <= m < 3 ==>
      r.value[k][m] == Dot(pinv(design).value[k], Column(sol, m))
  {
    match pinv(design)
    case None => None
    case Some(p) =>
      if |p| < 4 then None
      else
        var x, y, z := MatVec(p, Column(sol, 0)), MatVec(p, Column(sol, 1)), MatVec(p, Column(sol, 2));
        Some(seq(4, k requires 0 <= k < 4 => [x[k], y[k], z[k]]))
  }

  /** The weights 1 / (count - 1) · j run from 0 to 1 over the rows. */
  lemma SampleRange(count: nat, j: nat)
    requires count >= 2 && j < count
    ensures 0.0 <= Sample(count, j) <= 1.0
    ensures j == 0 ==> Sample(count, j) == 0.0
    ensures j == count - 1 ==> Sample(count, j) == 1.0
  {
    var c := (count - 1) as real;
    var w := 1.0 / c;
    assert w * c == 1.0;
    assert w > 0.0;
    RealMath.NonNegativeProduct(w, j as real);
    assert c - (j as real) >= 0.0;
    RealMath.NonNegativeProduct(w, c - (j as real));
    assert w * (c - (j as real)) == 1.0 - w * (j as real);
  }

  lemma Dot4(w: seq<real>, v: Vec)
    requires |w| == 4
    ensures Dot(w, v) == w[0] * At(v, 0) + w[1] * At(v, 1) + w[2] * At(v, 2) + w[3] * At(v, 3)
  {
    assert w[..3][..2] == w[..2];
    assert w[..2][..1] == w[..1];
    assert w[..1][..0] == [];
    assert Dot(w, v) == Dot(w[..3], v) + w[3] * At(v, 3);
    assert Dot(w[..3], v) == Dot(w[..2], v) + w[2] * At(v, 2);
    assert Dot(w[..2], v) == Dot(w[..1], v) + w[1] * At(v, 1);
    assert Dot(w[..1], v) == Dot([], v) + w[0] * At(v, 0);
  }

  lemma BasisValues(t: real)
    ensures BasisRow(t)[0] == (1.0 - t) * (1.0 - t) * (1.0 - t)
    ensures BasisRow(t)[1] == 3.0 * t * (1.0 - t) * (1.0 - t)
    ensures BasisRow(t)[2] == 3.0 * t * t * (1.0 - t)
    ensures BasisRow(t)[3] == t * t * t
  {
    assert Bernstein.Binomial(3, 1) == 3 by {
      assert Bernstein.Binomial(2, 0) == 1;
      assert Bernstein.Binomial(2, 1) == 2 by {
        assert Bernstein.Binomial(1, 0) == 1 && Bernstein.Binomial(1, 1) == 1;
      }
    }
    assert Bernstein.Binomial(3, 2) == 3 by {
      assert Bernstein.Binomial(2, 1) == 2 by {
        assert Bernstein.Binomial(1, 0) == 1 && Bernstein.Binomial(1, 1) == 1;
      }
      assert Bernstein.Binomial(2, 2) == 1 by {
        assert Bernstein.Binomial(1, 1) == 1 && Bernstein.Binomial(1, 2) == 0;
      }
    }
    assert Bernstein.Binomial(3, 3) == 1 by {
      Bernstein.BinomialDiagonal(3);
    }
    var s := 1.0 - t;
    PowSmall(s);
    PowSmall(t);
    var r := BasisRow(t);
    assert r[0] == 1.0 * 1.0 * (s * s * s);
    assert r[1] == 3.0 * t * (s * s);
    Reassociate(3.0, t, s);
    assert r[2] == 3.0 * (t * t) * s;
    Reassociate(3.0 * t, t, s);
    assert r[3] == 1.0 * (t * t * t) * 1.0;
  }

  lemma Reassociate(a: real, b: real, c: real)
    ensures a * b * (c * c) == a * b * c * c && a * (b * b) * c == a * b * b * c
  {
  }

  lemma PowSmall(x: real)
    ensures Bernstein.Pow(x, 0) == 1.0 && Bernstein.Pow(x, 1) == x
    ensures Bernstein.Pow(x, 2) == x * x && Bernstein.Pow(x, 3) == x * x * x
  {
    assert Bernstein.Pow(x, 1) == x * Bernstein.Pow(x, 0);
    assert Bernstein.Pow(x, 2) == x * Bernstein.Pow(x, 1);
    assert Bernstein.Pow(x, 3) == x * Bernstein.Pow(x, 2);
  }

  /** Coordinate m of one De Casteljau level: the two shorter curves interpolated at t. */
  lemma EvalSplit(ps: seq<Vec>, d: nat, t: real, m: nat)
    requires |ps| >= 2 && Uniform(ps, d) && m < d
    ensures Bezier.Eval(ps, t)[m]
         == (1.0 - t) * Bezier.Eval(ps[..|ps| - 1], t)[m] + t * Bezier.Eval(ps[1..], t)[m]
  {
    var l, r := Bezier.Eval(ps[..|ps| - 1], t), Bezier.Eval(ps[1..], t);
    assert Bezier.Eval(ps, t) == Bezier.Lerp(l, r, t);
    assert |ps[1..][0]| == d && |r| == d;
    assert At(r, m) == r[m];
  }

  /** The quadratic polynomial in Bernstein form with coefficients a, b, c. */
  function Quadratic(t: real, a: real, b: real, c: real): real {
    (1.0 - t) * (1.0 - t) * a + 2.0 * t * (1.0 - t) * b + t * t * c
  }

  /** The cubic polynomial in Bernstein form with coefficients a, b, c, e. */
  function Cubic(t: real, a: real, b: real, c: real, e: real): real {
    (1.0 - t) * (1.0 - t) * (1.0 - t) * a + 3.0 * t * (1.0 - t) * (1.0 - t) * b
    + 3.0 * t * t * (1.0 - t) * c + t * t * t * e
  }

  lemma QuadraticStep(t: real, a: real, b: real, c: real, l: real, r: real)
    requires l == (1.0 - t) * a + t * b && r == (1.0 - t) * b + t * c
    ensures (1.0 - t) * l + t * r == Quadratic(t, a, b, c)
  {
  }

  lemma CubicStep(t: real, a: real, b: real, c: real, e: real, l: real, r: real)
    requires l == Quadratic(t, a, b, c) && r == Quadratic(t, b, c, e)
    ensures (1.0 - t) * l + t * r == Cubic(t, a, b, c, e)
  {
  }

  /** Coordinate m of De Casteljau's point for two points. */
  lemma EvalLinear(ps: seq<Vec>, d: nat, t: real, m: nat)
    requires |ps| == 2 && Uniform(ps, d) && m < d
    ensures Bezier.Eval(ps, t)[m] == (1.0 - t) * ps[0][m] + t * ps[1][m]
  {
    EvalSplit(ps, d, t, m);
    assert ps[..1] == [ps[0]] && ps[1..] == [ps[1]];
    assert Bezier.Eval([ps[0]], t) == ps[0] && Bezier.Eval([ps[1]], t) == ps[1];
  }

  /** Coordinate m of De Casteljau's point for three points. */
  lemma EvalQuadratic(ps: seq<Vec>, d: nat, t: real, m: nat)
    requires |ps| == 3 && Uniform(ps, d) && m < d
    ensures Bezier.Eval(ps, t)[m] == Quadratic(t, ps[0][m], ps[1][m], ps[2][m])
  {
    var left, right := ps[..2], ps[1..];
    EvalSplit(ps, d, t, m);
    EvalLinear(left, d, t, m);
    EvalLinear(right, d, t, m);
    assert left[0] == ps[0] && left[1] == ps[1];
    assert right[0] == ps[1] && right[1] == ps[2];
    QuadraticStep(t, ps[0][m], ps[1][m], ps[2][m], Bezier.Eval(left, t)[m], Bezier.Eval(right, t)[m]);
  }

  /** Coordinate m of De Casteljau's point for four points. */
  lemma EvalCubic(ps: seq<Vec>, d: nat, t: real, m: nat)
    requires |ps| == 4 && Uniform(ps, d) && m < d
    ensures Bezier.Eval(ps, t)[m] == Cubic(t, ps[0][m], ps[1][m], ps[2][m], ps[3][m])
  {
    var left, right := ps[..3], ps[1..];
    EvalSplit(ps, d, t, m);
    EvalQuadratic(left, d, t, m);
    EvalQuadratic(right, d, t, m);
    assert left[0] == ps[0] && left[1] == ps[1] && left[2] == ps[2];
    assert right[0] == ps[1] && right[1] == ps[2] && right[2] == ps[3];
    CubicStep(t, ps[0][m], ps[1][m], ps[2][m], ps[3][m], Bezier.Eval(left, t)[m], Bezier.Eval(right, t)[m]);
  }

  /** The basis row dotted with four numbers is the cubic with those coefficients. */
  lemma BasisDot(t: real, col: Vec)
    requires |col| == 4
    ensures Dot(BasisRow(t), col) == Cubic(t, col[0], col[1], col[2], col[3])
  {
    BasisValues(t);
    Dot4(BasisRow(t), col);
    Reassociate4(t, col[0], col[1], col[2], col[3]);
  }

  lemma Reassociate4(t: real, a: real, b: real, c: real, e: real)
    ensures (1.0 - t) * (1.0 - t) * (1.0 - t) * a + 3.0 * t * (1.0 - t) * (1.0 - t) * b
          + 3.0 * t * t * (1.0 - t) * c + t * t * t * e == Cubic(t, a, b, c, e)
  {
  }

  /**
   The Bernstein form of a cubic Bezier curve: coordinate m of De Casteljau's point is the
   basis row dotted with coordinate m of the control points. This is what makes a row of
   the design matrix a point of the fitted curve.
   */
  lemma CubicBernsteinForm(ps: seq<Vec>, d: nat, t: real, m: nat)
    requires |ps| == 4 && Uniform(ps, d) && m < d
    ensures Bezier.Eval(ps, t)[m] == Dot(BasisRow(t), Column(ps, m))
  {
    EvalCubic(ps, d, t, m);
    var col := Column(ps, m);
    assert col[0] == ps[0][m] && col[1] == ps[1][m] && col[2] == ps[2][m] && col[3] == ps[3][m];
    BasisDot(t, col);
  }

  /** The cubic basis is a partition of unity: each row of the design matrix sums to 1. */
  lemma BasisRowSum(t: real)
    ensures Dot(BasisRow(t), [1.0, 1.0, 1.0, 1.0]) == 1.0
  {
    var ones := [[1.0], [1.0], [1.0], [1.0]];
    Bezier.EvalConstant(ones, [1.0], t);
    CubicBernsteinForm(ones, 1, t, 0);
    assert Column(ones, 0) == [1.0, 1.0, 1.0, 1.0];
  }

  /** On [0, 1] every basis value lies in [0, 1]. */
  lemma BasisRowRange(t: real)
    requires 0.0 <= t <= 1.0
    ensures forall i :: 0 <= i < 4 ==> 0.0 <= BasisRow(t)[i] <= 1.0
  {
    var r := BasisRow(t);
    forall i | 0 <= i < 4
      ensures 0.0 <= r[i]
    {
      Bernstein.CalcNonNegative(i, 3, t);
    }
    BasisRowSum(t);
    var ones := [1.0, 1.0, 1.0, 1.0];
    Dot4(r, ones);
    assert At(ones, 0) == 1.0 && At(ones, 1) == 1.0 && At(ones, 2) == 1.0 && At(ones, 3) == 1.0;
    assert r[0] + r[1] + r[2] + r[3] == 1.0;
  }

  /**
   The design matrix for count >= 2 states: its first row is [1, 0, 0, 0] and its last
   [0, 0, 0, 1], so the fitted curve's first and last control points carry the first and
   last rows alone; every entry lies in [0, 1] and every row sums to 1.
   */
  lemma DesignMatrixShape(count: nat)
    requires count >= 2
    ensures var b := DesignMatrix(count).value;
      && b[0] == [1.0, 0.0, 0.0, 0.0]
      && b[count - 1] == [0.0, 0.0, 0.0, 1.0]
      && forall j :: 0 <= j < count ==>
           Dot(b[j], [1.0, 1.0, 1.0, 1.0]) == 1.0 && forall i :: 0 <= i < 4 ==> 0.0 <= b[j][i] <= 1.0
  {
    var b := DesignMatrix(count).value;
    SampleRange(count, 0);
    SampleRange(count, count - 1);
    BasisValues(0.0);
    BasisValues(1.0);
    forall j | 0 <= j < count
      ensures Dot(b[j], [1.0, 1.0, 1.0, 1.0]) == 1.0 && forall i :: 0 <= i < 4 ==> 0.0 <= b[j][i] <= 1.0
    {
      SampleRange(count, j);
      BasisRowSum(Sample(count, j));
      BasisRowRange(Sample(count, j));
    }
  }

  /**
   Row j of the design matrix applied to coordinate m of four control points gives
   coordinate m of the Bezier point at the row's parameter: the matrix maps control
   points to curve samples.
   */
  lemma DesignMatrixSamplesCurve(count: nat, ps: seq<Vec>, d: nat, j: nat, m: nat)
    requires count >= 2 && j < count && |ps| == 4 && Uniform(ps, d) && m < d
    ensures Dot(DesignMatrix(count).value[j], Column(ps, m)) == Bezier.Eval(ps, Sample(count, j))[m]
  {
    CubicBernsteinForm(ps, d, Sample(count, j), m);
  }

  /** x + c·y, element by element. */
  function Combo(x: seq<real>, y: seq<real>, c: real): (r: seq<real>)
    requires |x| == |y|
    ensures |r| == |x| && forall i :: 0 <= i < |x| ==> r[i] == x[i] + c * y[i]
  {
    seq(|x|, i requires 0 <= i < |x| => x[i] + c * y[i])
  }

  /** Dot is linear in its first argument. */
  lemma {:induction false} DotLinear(x: seq<real>, y: seq<real>, c: real, v: Vec)
    requires |x| == |y|
    ensures Dot(Combo(x, y, c), v) == Dot(x, v) + c * Dot(y, v)
    decreases |x|
  {
    if |x| == 0 {
      assert Dot(y, v) == 0.0;
      ZeroTimes(c);
    } else {
      DotLinear(x[..|x| - 1], y[..|x| - 1], c, v);
      DotLinearStep(x, y, c, v);
    }
  }

  /** The inductive step of DotLinear: linearity on the prefixes extends by one entry. */
  lemma DotLinearStep(x: seq<real>, y: seq<real>, c: real, v: Vec)
    requires |x| == |y| > 0
    requires var n := |x| - 1; Dot(Combo(x[..n], y[..n], c), v) == Dot(x[..n], v) + c * Dot(y[..n], v)
    ensures Dot(Combo(x, y, c), v) == Dot(x, v) + c * Dot(y, v)
  {
    var n := |x| - 1;
    var z := Combo(x, y, c);
    ComboPrefix(x, y, c, n);
    var dz, dx, dy := Dot(z[..n], v), Dot(x[..n], v), Dot(y[..n], v);
    assert z[n] == x[n] + c * y[n];
    LinearStep(dz, dx, dy, z[n], x[n], y[n], c, At(v, n), Dot(z, v), Dot(x, v), Dot(y, v));
  }

  lemma ComboPrefix(x: seq<real>, y: seq<real>, c: real, n: nat)
    requires |x| == |y| && n <= |x|
    ensures Combo(x, y, c)[..n] == Combo(x[..n], y[..n], c)
  {
    var l, r := Combo(x, y, c)[..n], Combo(x[..n], y[..n], c);
    assert |l| == n == |r|;
    forall i | 0 <= i < n
      ensures l[i] == r[i]
    {
      assert l[i] == x[i] + c * y[i];
    }
  }

  lemma ZeroTimes(c: real)
    ensures c * 0.0 == 0.0
  {
  }

  lemma LinearStep(dz: real, dx: real, dy: real, zn: real, xn: real, yn: real, c: real, vn: real,
                   z: real, x: real, y: real)
    requires dz == dx + c * dy && zn == xn + c * yn
    requires z == dz + zn * vn && x == dx + xn * vn && y == dy + yn * vn
    ensures z == x + c * y
  {
  }

  /** wᵀB: the dot products of w with the first n columns of B. */
  function RowTimes(w: seq<real>, b: Matrix, n: nat): (r: seq<real>)
    ensures |r| == n
  {
    seq(n, i requires 0 <= i < n => Dot(w, Column(b, i)))
  }

  /** Adding one more row of B to wᵀB. */
  lemma RowTimesStep(w: seq<real>, b: Matrix, n: nat)
    requires 0 < |w| <= |b| && |b[|w| - 1]| == n
    ensures RowTimes(w, b, n) == Combo(RowTimes(w[..|w| - 1], b, n), b[|w| - 1], w[|w| - 1])
  {
    var k := |w| - 1;
    forall i | 0 <= i < n
      ensures RowTimes(w, b, n)[i] == Combo(RowTimes(w[..k], b, n), b[k], w[k])[i]
    {
      assert At(Column(b, i), k) == b[k][i];
    }
  }

  /**
   Summing in either order: w·(B v) == (wᵀB)·v for a matrix B whose rows have n entries.
   */
  lemma {:induction false} DotMatVec(w: seq<real>, b: Matrix, n: nat, v: Vec)
    requires |w| <= |b| && forall j :: 0 <= j < |b| ==> |b[j]| == n
    ensures Dot(w, MatVec(b, v)) == Dot(RowTimes(w, b, n), v)
    decreases |w|
  {
    if |w| == 0 {
      DotZero(RowTimes(w, b, n), v);
    } else {
      var k := |w| - 1;
      DotMatVec(w[..k], b, n, v);
      RowTimesStep(w, b, n);
      DotLinear(RowTimes(w[..k], b, n), b[k], w[k], v);
      assert At(MatVec(b, v), k) == Dot(b[k], v);
    }
  }

  lemma {:induction false} DotZero(row: seq<real>, v: Vec)
    requires forall i :: 0 <= i < |row| ==> row[i] == 0.0
    ensures Dot(row, v) == 0.0
    decreases |row|
  {
    if |row| > 0 {
      DotZero(row[..|row| - 1], v);
    }
  }

  /** p is a left inverse of the design matrix b: p·b is the 4×4 identity. */
  ghost predicate LeftInverse(p: Matrix, b: Matrix) {
    && |p| == 4
    && (forall k :: 0 <= k < 4 ==> |p[k]| == |b|)
    && forall k, i :: 0 <= k < 4 && 0 <= i < 4 ==> Dot(p[k], Column(b, i)) == if k == i then 1.0 else 0.0
  }

  /** Solution states on the curve q make coordinate column m the design matrix times q's column m. */
  lemma SolutionColumn(count: nat, sol: seq<Vec>, q: seq<Vec>, m: nat)
    requires count >= 2 && |sol| == count && |q| == 4 && Uniform(q, 3) && m < 3
    requires forall j :: 0 <= j < count ==> At(sol[j], m) == Bezier.Eval(q, Sample(count, j))[m]
    ensures Column(sol, m) == MatVec(DesignMatrix(count).value, Column(q, m))
  {
    var b, col := DesignMatrix(count).value, Column(q, m);
    forall j | 0 <= j < count
      ensures Column(sol, m)[j] == MatVec(b, col)[j]
    {
      DesignMatrixSamplesCurve(count, q, 3, j, m);
    }
  }

  /** Row k of a left inverse of b picks coordinate k out of b·col. */
  lemma UnitCoordinate(p: Matrix, b: Matrix, k: nat, col: Vec)
    requires LeftInverse(p, b) && k < 4 && |col| == 4
    requires forall j :: 0 <= j < |b| ==> |b[j]| == 4
    ensures Dot(p[k], MatVec(b, col)) == col[k]
  {
    DotMatVec(p[k], b, 4, col);
    var unit := RowTimes(p[k], b, 4);
    assert forall i :: 0 <= i < 4 ==> unit[i] == if k == i then 1.0 else 0.0;
    Dot4(unit, col);
  }

  /** One coordinate of one fitted control point, under the hypotheses of FitRecoversCubic. */
  lemma FitEntry(p: Matrix, count: nat, sol: seq<Vec>, q: seq<Vec>, k: nat, m: nat)
    requires count >= 2 && |sol| == count && |q| == 4 && Uniform(q, 3) && k < 4 && m < 3
    requires LeftInverse(p, DesignMatrix(count).value)
    requires forall j :: 0 <= j < count ==> At(sol[j], m) == Bezier.Eval(q, Sample(count, j))[m]
    ensures Dot(p[k], Column(sol, m)) == q[k][m]
  {
    SolutionColumn(count, sol, q, m);
    UnitCoordinate(p, DesignMatrix(count).value, k, Column(q, m));
    assert Column(q, m)[k] == q[k][m];
  }

  /**
   Least squares reproduces a curve it can represent: when the pseudo-inverse is a left
   inverse of the design matrix and the x, y, z coordinates of every state lie on the
   cubic Bezier curve q at the row's parameter, the fitted control points are q.
   */
  lemma FitRecoversCubic(pinv: Matrix -> Option<Matrix>, count: nat, sol: seq<Vec>, q: seq<Vec>)
    requires count >= 2 && |sol| == count && |q| == 4 && Uniform(q, 3)
    requires pinv(DesignMatrix(count).value).Some?
    requires LeftInverse(pinv(DesignMatrix(count).value).value, DesignMatrix(count).value)
    requires forall j, m :: 0 <= j < count && 0 <= m < 3 ==>
      At(sol[j], m) == Bezier.Eval(q, Sample(count, j))[m]
    ensures FitControlPoints(pinv, DesignMatrix(count).value, sol) == Some(q)
  {
    var b := DesignMatrix(count).value;
    var p := pinv(b).value;
    assert |p| == 4;
    var r := FitControlPoints(pinv, b, sol).value;
    forall k | 0 <= k < 4
      ensures r[k] == q[k]
    {
      forall m | 0 <= m < 3
        ensures r[k][m] == q[k][m]
      {
        FitEntry(p, count, sol, q, k, m);
      }
      assert |r[k]| == 3 == |q[k]|;
    }
    assert r == q;
  }
}
