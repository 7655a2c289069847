/**
 PitchService: calibrating a pitch's drag and lift coefficients against its measured end
 point, fitting a cubic Bezier curve to the resulting trajectory, and the three pitch
 tunnelling comparisons between two pitches.
 */
module PitchService {
  import opened Wrappers
  import opened RealMath
  import opened Vectors
  import Distance = DistanceMetric
  import Integrator = NumericalMethod
  import Motion = DifferentialEquations
  import Search = NeighborhoodSearch
  import Bezier = DeCasteljausAlgorithm
  import Fit = BezierFit

  /**
   The pitch fields the service reads (release point, release velocity, measured end
   point, spin angle, duration) and writes (coefficients, deviation, control points).
   */
  datatype Pitch = Pitch(xyz0: Vec, vxyz0: Vec, xyzT: Vec, alpha: real, t: real,
                         cd: real, cl: real, delta: real, xyz1: Vec, xyz2: Vec, xyz3: Vec)

  /** Why `calc` gives no result: the search left `$bestX` unassigned, or MathPHP failed. */
  datatype Error = SearchUnassigned | FitFailed

  /** The integrator's step count, hence 100 states per trajectory. */
  const StepCount: int := 99

  /**
   PitchService::calc, the search setup: c_d searched over [0.2, 0.5] and c_l over [0, 1]
   with the default steps.
   */
  function CalibrationSearch(mooreDirs: seq<Search.Dir>): (r: Search.Neighborhood)
    ensures Search.Centre(r) == Search.Point(0.35, 0.5) && Search.InRect(r, Search.Centre(r))
    ensures r.xStep == 0.01 && r.yStep == 0.01 && r.dirs == mooreDirs
  {
    Search.Neighborhood(0.2, 0.0, 0.5, 1.0, mooreDirs, Search.DefaultStep, Search.DefaultStep)
  }

  /** PitchService::calc, the integrator: RK4 with 99 steps over the pitch duration. */
  function Rk4(t: real): (r: Integrator.Method)
    ensures r.kind == Integrator.RungeKutta4 && r.n == StepCount && r.h * 99.0 == t
  {
    Integrator.New(Integrator.RungeKutta4, StepCount, t).value
  }

  /** PitchService::calc, the initial state: release position followed by release velocity. */
  function InitialState(p: Pitch): Vec {
    p.xyz0 + p.vxyz0
  }

  /** The RK4 solution of the softball equations with coefficients cd and cl. */
  function Trajectory(e: Elementary, p: Pitch, cd: real, cl: real): (r: seq<Vec>)
    requires Valid(e)
    ensures |r| == StepCount + 1 && r[0] == InitialState(p)
  {
    var eq := Motion.Softball(e, cd, cl, p.alpha);
    Integrator.Solve(Rk4(p.t), InitialState(p), s => Motion.Deriv(e, eq, s))
  }

  function Last(states: seq<Vec>): Vec
    requires |states| > 0
  {
    states[|states| - 1]
  }

  /**
   The search objective: the Euclidean distance from the measured end point to the last
   state. The distance loops over the end point's coordinates, so only the position part
   of the six-component state is compared.
   */
  function Deviation(e: Elementary, p: Pitch, cd: real, cl: real): (r: real)
    requires Valid(e)
    ensures r >= 0.0
  {
    var last := Last(Trajectory(e, p, cd, cl));
    Distance.EuclideanSquared(e, p.xyzT, last);
    Distance.Euclidean(e, p.xyzT, last)
  }

  /** The objective handed to `approx`, with c_d as x and c_l as y. */
  function Objective(e: Elementary, p: Pitch): Search.Point -> real
    requires Valid(e)
  {
    (q: Search.Point) => Deviation(e, p, q.x, q.y)
  }

  /**
   What the search promises of the coefficients it settles on: they lie on the search
   lattice, they improve on the starting point unless they are it, and inside the
   rectangle no move improves on them.
   */
  ghost predicate Calibrated(nb: Search.Neighborhood, obj: Search.Point -> real, p: Search.Point) {
    && (exists i, j :: p == Search.Lattice(nb, i, j))
    && (p != Search.Centre(nb) ==> obj(p) < obj(Search.Centre(nb)))
    && (Search.InRect(nb, p) ==> Search.NoDescent(nb, obj, p))
  }

  /**
   The calibration search's outcome under the objective obj: the best-improvement walk of
   `approx` from (c_d, c_l) = (0.35, 0.5).
   */
  function CalibrationWalk(mooreDirs: seq<Search.Dir>, obj: Search.Point -> real): (r: Search.Outcome)
    ensures r.Unassigned? <==> Search.NoDescent(CalibrationSearch(mooreDirs), obj, Search.Point(0.35, 0.5))
    ensures r.Found? ==> Calibrated(CalibrationSearch(mooreDirs), obj, r.p)
  {
    Search.Descent(CalibrationSearch(mooreDirs), obj)
  }

  /**
   PitchService::calc, the search for (c_d, c_l) under the objective obj; None when
   `$bestX` stays unassigned, otherwise the point the walk settles on.
   */
  method Calibrate(mooreDirs: seq<Search.Dir>, obj: Search.Point -> real) returns (r: Option<Search.Point>)
    ensures r.None? <==> CalibrationWalk(mooreDirs, obj).Unassigned?
    ensures r.Some? ==> CalibrationWalk(mooreDirs, obj) == Search.Found(r.value)
    ensures r.None? <==> Search.NoDescent(CalibrationSearch(mooreDirs), obj, Search.Point(0.35, 0.5))
    ensures r.Some? ==> Calibrated(CalibrationSearch(mooreDirs), obj, r.value)
  {
    var found := Search.Approx(CalibrationSearch(mooreDirs), obj);
    if found.Unassigned? {
      return None;
    }
    return Some(found.p);
  }

  /**
   PitchService::calc. The Moore directions are not part of this model and come in as a
   parameter, as does MathPHP's pseudo-inverse.
   */
  method Calc(e: Elementary, pitch: Pitch, mooreDirs: seq<Search.Dir>, pinv: Fit.Matrix -> Option<Fit.Matrix>)
    returns (r: Result<Pitch, Error>)
    requires Valid(e)
    ensures r == Failure(SearchUnassigned) <==> CalibrationWalk(mooreDirs, Objective(e, pitch)).Unassigned?
    ensures r == Failure(SearchUnassigned) <==>
      Search.NoDescent(CalibrationSearch(mooreDirs), Objective(e, pitch), Search.Point(0.35, 0.5))
    ensures r.Success? ==>
      var q := r.value;
      && CalibrationWalk(mooreDirs, Objective(e, pitch)) == Search.Found(Search.Point(q.cd, q.cl))
      && q == pitch.(cd := q.cd, cl := q.cl, delta := q.delta, xyz1 := q.xyz1, xyz2 := q.xyz2, xyz3 := q.xyz3)
      && Calibrated(CalibrationSearch(mooreDirs), Objective(e, pitch), Search.Point(q.cd, q.cl))
      && q.delta == Deviation(e, pitch, q.cd, q.cl)
      && var fit := Fit.FitControlPoints(pinv, Fit.DesignMatrix(StepCount + 1).value, Trajectory(e, pitch, q.cd, q.cl));
         fit.Some? && fit.value[1..] == [q.xyz1, q.xyz2, q.xyz3]
    ensures r == Failure(FitFailed) ==>
      var fit := pinv(Fit.DesignMatrix(StepCount + 1).value);
      fit.None? || |fit.value| < 4
  {
    var found := Calibrate(mooreDirs, Objective(e, pitch));
    if found.None? {
      return Failure(SearchUnassigned);
    }
    var cd, cl := found.value.x, found.value.y;
    assert found.value == Search.Point(cd, cl);
    var solution := Trajectory(e, pitch, cd, cl);
    var delta := Distance.Euclidean(e, pitch.xyzT, Last(solution));
    var design := Fit.DesignMatrix(|solution|).value;
    var fitted := Fit.FitControlPoints(pinv, design, solution);
    if fitted.None? {
      return Failure(FitFailed);
    }
    var cps := fitted.value;
    r := Success(pitch.(cd := cd, cl := cl, delta := delta, xyz1 := cps[1], xyz2 := cps[2], xyz3 := cps[3]));
    LastThree(cps);
  }

  /** The objective at q is the deviation with c_d = q.x and c_l = q.y. */
  lemma ObjectiveAt(e: Elementary, pitch: Pitch, q: Search.Point)
    requires Valid(e)
    ensures Objective(e, pitch)(q) == Deviation(e, pitch, q.x, q.y)
  {
  }

  /** The coefficients one Moore move d away from (cd, cl). */
  function Moved(cd: real, cl: real, d: Search.Dir): Search.Point {
    Search.Point(cd + (d.dx as real) * 0.01, cl + (d.dy as real) * 0.01)
  }

  /** The coefficients i steps along c_d and j steps along c_l from (0.35, 0.5). */
  function GridPoint(i: int, j: int): Search.Point {
    Search.Point(0.35 + (i as real) * 0.01, 0.5 + (j as real) * 0.01)
  }

  lemma MoveIsMoved(mooreDirs: seq<Search.Dir>, p: Search.Point, d: Search.Dir)
    ensures Search.Move(CalibrationSearch(mooreDirs), p, d) == Moved(p.x, p.y, d)
  {
  }

  /**
   On the calibration grid, the search gives up exactly when no Moore move from
   (c_d, c_l) = (0.35, 0.5) lowers the objective.
   */
  lemma NoDescentOnGrid(mooreDirs: seq<Search.Dir>, obj: Search.Point -> real)
    ensures Search.NoDescent(CalibrationSearch(mooreDirs), obj, Search.Point(0.35, 0.5)) <==>
      forall k :: 0 <= k < |mooreDirs| ==> obj(Moved(0.35, 0.5, mooreDirs[k])) >= obj(Search.Point(0.35, 0.5))
  {
    var nb := CalibrationSearch(mooreDirs);
    forall k | 0 <= k < |mooreDirs|
      ensures Search.Move(nb, Search.Centre(nb), mooreDirs[k]) == Moved(0.35, 0.5, mooreDirs[k])
    {
      MoveIsMoved(mooreDirs, Search.Centre(nb), mooreDirs[k]);
    }
  }

  /**
   On the calibration grid, calibrated coefficients other than (0.35, 0.5) have a strictly
   lower objective, and inside [0.2, 0.5] × [0, 1] no Moore move lowers it.
   */
  lemma CalibratedOnGrid(mooreDirs: seq<Search.Dir>, obj: Search.Point -> real, cd: real, cl: real)
    requires Calibrated(CalibrationSearch(mooreDirs), obj, Search.Point(cd, cl))
    ensures (cd, cl) != (0.35, 0.5) ==> obj(Search.Point(cd, cl)) < obj(Search.Point(0.35, 0.5))
    ensures 0.2 <= cd <= 0.5 && 0.0 <= cl <= 1.0 ==>
      forall k :: 0 <= k < |mooreDirs| ==> obj(Moved(cd, cl, mooreDirs[k])) >= obj(Search.Point(cd, cl))
    ensures exists i, j :: Search.Point(cd, cl) == GridPoint(i, j)
  {
    var nb, p := CalibrationSearch(mooreDirs), Search.Point(cd, cl);
    if 0.2 <= cd <= 0.5 && 0.0 <= cl <= 1.0 {
      assert Search.InRect(nb, p);
      forall k | 0 <= k < |mooreDirs|
        ensures obj(Moved(cd, cl, mooreDirs[k])) >= obj(p)
      {
        MoveIsMoved(mooreDirs, p, mooreDirs[k]);
      }
    }
    var i, j :| p == Search.Lattice(nb, i, j);
    assert p == GridPoint(i, j);
  }

  lemma LastThree(cps: seq<Vec>)
    requires |cps| == 4
    ensures cps[1..] == [cps[1], cps[2], cps[3]]
  {
  }

  /**
   PitchService::compHalf and compLast: the control polygon translated so that the release
   point is the origin.
   */
  function Relative(p: Pitch): (r: seq<Vec>)
    ensures |r| == 4 && r[0] == Zeros(|p.xyz0|)
  {
    var origin := Sub(p.xyz0, p.xyz0);
    assert origin == Zeros(|p.xyz0|);
    [origin, Sub(p.xyz1, p.xyz0), Sub(p.xyz2, p.xyz0), Sub(p.xyz3, p.xyz0)]
  }

  /** The control polygon as stored. */
  function Control(p: Pitch): seq<Vec> {
    [p.xyz0, p.xyz1, p.xyz2, p.xyz3]
  }

  /** All four control points of p share one dimension. */
  ghost predicate Dims(p: Pitch) {
    |p.xyz1| == |p.xyz0| && |p.xyz2| == |p.xyz0| && |p.xyz3| == |p.xyz0|
  }

  function Neg(v: Vec): (r: Vec)
    ensures |r| == |v|
  {
    seq(|v|, i requires 0 <= i < |v| => - v[i])
  }

  /**
   The relative curve is the stored curve seen from the release point: at every t it is
   the stored curve's point minus xyz_0.
   */
  lemma RelativeCurve(p: Pitch, t: real)
    requires Dims(p)
    ensures Bezier.Eval(Relative(p), t) == Add(Bezier.Eval(Control(p), t), Neg(p.xyz0))
  {
    var c := Neg(p.xyz0);
    assert Uniform(Control(p), |c|);
    var shifted := Translate(Control(p), c);
    forall k | 0 <= k < 4
      ensures shifted[k] == Relative(p)[k]
    {
      assert |shifted[k]| == |Relative(p)[k]|;
    }
    assert shifted == Relative(p);
    Bezier.EvalTranslate(Control(p), c, t);
  }

  /** The parameter of sample i of compHalf, PHP's i / 99. */
  function HalfSample(i: nat): real {
    (i as real) / 99.0
  }

  /** The distance between the two relative curves at sample i. */
  function Gap(e: Elementary, a: Pitch, b: Pitch, i: nat): (r: real)
    requires Valid(e)
    ensures r >= 0.0
  {
    var pa, pb := Bezier.Eval(Relative(a), HalfSample(i)), Bezier.Eval(Relative(b), HalfSample(i));
    Distance.EuclideanSquared(e, pa, pb);
    Distance.Euclidean(e, pa, pb)
  }

  /** The sum of the first n distances between the two relative curves at i / 99. */
  function GapSum(e: Elementary, a: Pitch, b: Pitch, n: nat): (r: real)
    requires Valid(e)
    ensures r >= 0.0
  {
    if n == 0 then 0.0
    else GapSum(e, a, b, n - 1) + Gap(e, a, b, n - 1)
  }

  /** The compHalf score: one minus the mean gap over 50 samples in units of 0.194, floored at 0. */
  function HalfScore(e: Elementary, a: Pitch, b: Pitch): (r: real)
    requires Valid(e)
    ensures 0.0 <= r <= 1.0
  {
    RealMath.Max(0.0, 1.0 - (GapSum(e, a, b, 50) / 50.0) / 0.194)
  }

  /** PitchService::compHalf, sampling the first half of both curves with De Casteljau's loop. */
  method CompHalf(e: Elementary, a: Pitch, b: Pitch) returns (r: real)
    requires Valid(e)
    ensures r == HalfScore(e, a, b)
    ensures 0.0 <= r <= 1.0
  {
    var pointsA, pointsB := Relative(a), Relative(b);
    var dist := 0.0;
    var i := 0;
    while i < 50
      invariant 0 <= i <= 50
      invariant dist == GapSum(e, a, b, i)
    {
      var pointA := Bezier.Calc(pointsA, HalfSample(i));
      var pointB := Bezier.Calc(pointsB, HalfSample(i));
      dist := dist + Distance.Euclidean(e, pointA, pointB);
      i := i + 1;
    }
    dist := dist / 50.0;
    r := RealMath.Max(0.0, 1.0 - dist / 0.194);
  }

  lemma {:induction false} GapSumSelf(e: Elementary, a: Pitch, n: nat)
    requires Valid(e)
    ensures GapSum(e, a, a, n) == 0.0
  {
    if n > 0 {
      GapSumSelf(e, a, n - 1);
      var pa := Bezier.Eval(Relative(a), HalfSample(n - 1));
      Distance.EuclideanZeroIff(e, pa, pa);
    }
  }

  lemma {:induction false} GapSumSymmetric(e: Elementary, a: Pitch, b: Pitch, n: nat)
    requires Valid(e) && |a.xyz0| == |b.xyz0|
    ensures GapSum(e, a, b, n) == GapSum(e, b, a, n)
  {
    if n > 0 {
      GapSumSymmetric(e, a, b, n - 1);
      var pa, pb := Bezier.Eval(Relative(a), HalfSample(n - 1)), Bezier.Eval(Relative(b), HalfSample(n - 1));
      Distance.EuclideanSymmetric(e, pa, pb);
    }
  }

  /** A pitch compared with itself tunnels perfectly. */
  lemma HalfScoreSelf(e: Elementary, a: Pitch)
    requires Valid(e)
    ensures HalfScore(e, a, a) == 1.0
  {
    GapSumSelf(e, a, 50);
  }

  /** compHalf does not depend on the order of the pitches of one dimension. */
  lemma HalfScoreSymmetric(e: Elementary, a: Pitch, b: Pitch)
    requires Valid(e) && |a.xyz0| == |b.xyz0|
    ensures HalfScore(e, a, b) == HalfScore(e, b, a)
  {
    GapSumSymmetric(e, a, b, 50);
  }

  /** The compLast score: the gap between the relative curves at t = 1 in units of 0.432, capped at 1. */
  function LastScore(e: Elementary, a: Pitch, b: Pitch): (r: real)
    requires Valid(e)
    ensures 0.0 <= r <= 1.0
  {
    var pa, pb := Bezier.Eval(Relative(a), 1.0), Bezier.Eval(Relative(b), 1.0);
    Distance.EuclideanSquared(e, pa, pb);
    Min(1.0, Distance.Euclidean(e, pa, pb) / 0.432)
  }

  /** PitchService::compLast. */
  method CompLast(e: Elementary, a: Pitch, b: Pitch) returns (r: real)
    requires Valid(e)
    ensures r == LastScore(e, a, b)
    ensures 0.0 <= r <= 1.0
  {
    var pointsA, pointsB := Relative(a), Relative(b);
    var pointA := Bezier.Calc(pointsA, 1.0);
    var pointB := Bezier.Calc(pointsB, 1.0);
    var dist := Distance.Euclidean(e, pointA, pointB);
    r := Min(1.0, dist / 0.432);
  }

  /**
   By the endpoint property of Bezier curves, compLast only sees the last control points
   relative to the release points: min(1, |(A3 − A0) − (B3 − B0)| / 0.432).
   */
  lemma LastScoreEndpoints(e: Elementary, a: Pitch, b: Pitch)
    requires Valid(e) && Dims(a) && Dims(b)
    ensures LastScore(e, a, b) == Min(1.0, Distance.Euclidean(e, Sub(a.xyz3, a.xyz0), Sub(b.xyz3, b.xyz0)) / 0.432)
  {
    assert Uniform(Relative(a), |a.xyz0|);
    assert Uniform(Relative(b), |b.xyz0|);
    Bezier.EvalAtOne(Relative(a), |a.xyz0|);
    Bezier.EvalAtOne(Relative(b), |b.xyz0|);
  }

  /** A pitch compared with itself ends at no distance. */
  lemma LastScoreSelf(e: Elementary, a: Pitch)
    requires Valid(e)
    ensures LastScore(e, a, a) == 0.0
  {
    var pa := Bezier.Eval(Relative(a), 1.0);
    Distance.EuclideanZeroIff(e, pa, pa);
  }

  lemma LastScoreSymmetric(e: Elementary, a: Pitch, b: Pitch)
    requires Valid(e) && |a.xyz0| == |b.xyz0|
    ensures LastScore(e, a, b) == LastScore(e, b, a)
  {
    Distance.EuclideanSymmetric(e, Bezier.Eval(Relative(a), 1.0), Bezier.Eval(Relative(b), 1.0));
  }

  /** PitchService::compDiff: the distance between the release points. */
  function CompDiff(e: Elementary, a: Pitch, b: Pitch): (r: real)
    requires Valid(e)
    ensures r >= 0.0
  {
    Distance.EuclideanSquared(e, a.xyz0, b.xyz0);
    Distance.Euclidean(e, a.xyz0, b.xyz0)
  }

  /** compDiff is zero exactly when the release points coincide. */
  lemma CompDiffZeroIff(e: Elementary, a: Pitch, b: Pitch)
    requires Valid(e) && |a.xyz0| == |b.xyz0|
    ensures CompDiff(e, a, b) == 0.0 <==> a.xyz0 == b.xyz0
  {
    Distance.EuclideanZeroIff(e, a.xyz0, b.xyz0);
  }

  lemma CompDiffSymmetric(e: Elementary, a: Pitch, b: Pitch)
    requires Valid(e) && |a.xyz0| == |b.xyz0|
    ensures CompDiff(e, a, b) == CompDiff(e, b, a)
  {
    Distance.EuclideanSymmetric(e, a.xyz0, b.xyz0);
  }
}
