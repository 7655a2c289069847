/**
 De Casteljau's algorithm (DeCasteljausAlgorithm::calc): evaluates a Bezier curve
 given by its control points at parameter t by repeated linear interpolation.
 */
module DeCasteljausAlgorithm {
  import opened Vectors

  /** One interpolation of a pair of points over a's dimension: (1 - t)·a + t·b. */
  function Lerp(a: Vec, b: Vec, t: real): (r: Vec)
    ensures |r| == |a|
  {
    seq(|a|, i requires 0 <= i < |a| => (1.0 - t) * a[i] + t * At(b, i))
  }

  /**
   The recursive definition of a Bezier curve point:
   B(P0..Pk) = (1 - t)·B(P0..Pk-1) + t·B(P1..Pk), and B(P0) = P0.
   */
  function Eval(ps: seq<Vec>, t: real): (r: Vec)
    requires |ps| > 0
    ensures |r| == |ps[0]|
    decreases |ps|
  {
    if |ps| == 1 then ps[0] else Lerp(Eval(ps[..|ps| - 1], t), Eval(ps[1..], t), t)
  }

  /** Unfolding of Eval on the window points[j..j + r + 1]. */
  lemma EvalWindow(points: seq<Vec>, j: nat, r: nat, t: real)
    requires 1 <= r && j + r < |points|
    ensures Eval(points[j..j + r + 1], t)
         == Lerp(Eval(points[j..j + r], t), Eval(points[j + 1..j + r + 1], t), t)
  {
    var w := points[j..j + r + 1];
    assert w[..|w| - 1] == points[j..j + r];
    assert w[1..] == points[j + 1..j + r + 1];
  }

  /** The innermost loop: points[j] := (1 - t)·points[j] + t·points[j + 1], coordinate by coordinate. */
  method Interpolate(pts: seq<Vec>, j: nat, t: real) returns (res: seq<Vec>)
    requires j + 1 < |pts|
    ensures |res| == |pts|
    ensures res[j] == Lerp(pts[j], pts[j + 1], t)
    ensures forall k :: 0 <= k < |pts| && k != j ==> res[k] == pts[k]
  {
    res := pts;
    var i := 0;
    while i < |res[j]|
      invariant 0 <= i <= |pts[j]|
      invariant |res| == |pts|
      invariant |res[j]| == |pts[j]|
      invariant forall m :: 0 <= m < i ==> res[j][m] == (1.0 - t) * pts[j][m] + t * At(pts[j + 1], m)
      invariant forall m :: i <= m < |pts[j]| ==> res[j][m] == pts[j][m]
      invariant forall k :: 0 <= k < |pts| && k != j ==> res[k] == pts[k]
    {
      res := res[j := res[j][i := (1.0 - t) * res[j][i] + t * At(res[j + 1], i)]];
      i := i + 1;
    }
    assert forall m :: 0 <= m < |pts[j]| ==> res[j][m] == Lerp(pts[j], pts[j + 1], t)[m];
  }

  /** One pass r of the middle loop: points[j] for j < n - r, in increasing j. */
  method Pass(pts: seq<Vec>, m: nat, t: real) returns (res: seq<Vec>)
    requires m < |pts|
    ensures |res| == |pts|
    ensures forall k :: 0 <= k < m ==> res[k] == Lerp(pts[k], pts[k + 1], t)
    ensures forall k :: m <= k < |pts| ==> res[k] == pts[k]
  {
    res := pts;
    var j := 0;
    while j < m
      invariant 0 <= j <= m
      invariant |res| == |pts|
      invariant forall k :: 0 <= k < j ==> res[k] == Lerp(pts[k], pts[k + 1], t)
      invariant forall k :: j <= k < |pts| ==> res[k] == pts[k]
    {
      res := Interpolate(res, j, t);
      j := j + 1;
    }
  }

  /**
   The in-place triple loop of the source: pass r overwrites points[j] with the
   interpolation of points[j] and points[j + 1], reading points[j + 1] before the
   same pass overwrites it. The result is the recursive definition.
   */
  method Calc(points: seq<Vec>, t: real) returns (p: Vec)
    requires |points| > 0
    ensures p == Eval(points, t)
    ensures |points| == 1 ==> p == points[0]
  {
    var pts := points;
    var n := |pts|;
    var r := 1;
    while r < n
      invariant 1 <= r <= n
      invariant |pts| == n
      invariant forall j :: 0 <= j <= n - r ==> pts[j] == Eval(points[j..j + r], t)
    {
      ghost var before := pts;
      pts := Pass(pts, n - r, t);
      forall j | 0 <= j < n - r
        ensures pts[j] == Eval(points[j..j + r + 1], t)
      {
        assert before[j] == Eval(points[j..j + r], t);
        assert before[j + 1] == Eval(points[j + 1..j + 1 + r], t);
        EvalWindow(points, j, r, t);
      }
      r := r + 1;
    }
    assert points[0..n] == points;
    p := pts[0];
  }

  /** At t = 0 the curve passes through the first control point. */
  lemma {:induction false} EvalAtZero(ps: seq<Vec>)
    requires |ps| > 0
    ensures Eval(ps, 0.0) == ps[0]
    decreases |ps|
  {
    if |ps| > 1 {
      EvalAtZero(ps[..|ps| - 1]);
    }
  }

  /** At t = 1 the curve passes through the last control point. */
  lemma {:induction false} EvalAtOne(ps: seq<Vec>, d: nat)
    requires |ps| > 0 && Uniform(ps, d)
    ensures Eval(ps, 1.0) == ps[|ps| - 1]
    decreases |ps|
  {
    if |ps| > 1 {
      EvalAtOne(ps[1..], d);
      assert ps[1..][|ps| - 2] == ps[|ps| - 1];
    }
  }

  /** The curve point has the common dimension of the control points. */
  lemma EvalDimension(ps: seq<Vec>, t: real, d: nat)
    requires |ps| > 0 && Uniform(ps, d)
    ensures |Eval(ps, t)| == d
  {
  }

  /** Translating every control point by c translates the curve point by c. */
  lemma {:induction false} EvalTranslate(ps: seq<Vec>, c: Vec, t: real)
    requires |ps| > 0 && Uniform(ps, |c|)
    ensures Eval(Translate(ps, c), t) == Add(Eval(ps, t), c)
    decreases |ps|
  {
    if |ps| > 1 {
      var k := |ps| - 1;
      EvalTranslate(ps[..k], c, t);
      EvalTranslate(ps[1..], c, t);
      EvalTranslateStep(ps, c, t);
    }
  }

  /** The inductive step of EvalTranslate: translation commutes with one interpolation level. */
  lemma EvalTranslateStep(ps: seq<Vec>, c: Vec, t: real)
    requires |ps| > 1 && Uniform(ps, |c|)
    requires Eval(Translate(ps[..|ps| - 1], c), t) == Add(Eval(ps[..|ps| - 1], t), c)
    requires Eval(Translate(ps[1..], c), t) == Add(Eval(ps[1..], t), c)
    ensures Eval(Translate(ps, c), t) == Add(Eval(ps, t), c)
  {
    var qs, k := Translate(ps, c), |ps| - 1;
    assert qs[..k] == Translate(ps[..k], c);
    assert qs[1..] == Translate(ps[1..], c);
    var a, b := Eval(ps[..k], t), Eval(ps[1..], t);
    assert |a| == |c| && |b| == |c|;
    LerpTranslate(a, b, c, t);
  }

  /** Interpolating two translated points is translating the interpolated point. */
  lemma LerpTranslate(a: Vec, b: Vec, c: Vec, t: real)
    requires |a| == |c| && |b| == |c|
    ensures Lerp(Add(a, c), Add(b, c), t) == Add(Lerp(a, b, t), c)
  {
    var l, r := Lerp(Add(a, c), Add(b, c), t), Add(Lerp(a, b, t), c);
    forall i | 0 <= i < |c|
      ensures l[i] == r[i]
    {
      assert At(Add(b, c), i) == b[i] + c[i] && At(b, i) == b[i];
      LerpShift(a[i], b[i], c[i], t);
    }
    assert l == r;
  }

  lemma LerpShift(a: real, b: real, c: real, t: real)
    ensures (1.0 - t) * (a + c) + t * (b + c) == (1.0 - t) * a + t * b + c
  {
  }

  /** If every control point is p, the curve is the single point p. */
  lemma {:induction false} EvalConstant(ps: seq<Vec>, p: Vec, t: real)
    requires |ps| > 0 && AllEqual(ps, p)
    ensures Eval(ps, t) == p
    decreases |ps|
  {
    if |ps| > 1 {
      var k := |ps| - 1;
      EvalConstant(ps[..k], p, t);
      EvalConstant(ps[1..], p, t);
      forall i | 0 <= i < |p|
        ensures Lerp(p, p, t)[i] == p[i]
      {
        assert (1.0 - t) * p[i] + t * p[i] == p[i];
      }
    }
  }
}
