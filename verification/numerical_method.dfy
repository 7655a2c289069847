/**
 The fixed-step integrators (NumericalMethod\AbstractMethod and its Euler, RK2 and
 RK4 subclasses). The differential equations enter as an arbitrary total function
 `deriv` from states to derivatives.
 */
module NumericalMethod {
  import opened Wrappers
  import opened Vectors

  datatype Kind = Euler | RungeKutta2 | RungeKutta4

  /** A constructed method: n steps of size h. */
  datatype Method = Method(kind: Kind, n: int, h: real)

  /** PHP 8 throws DivisionByZeroError on t / 0. */
  datatype Error = DivisionByZero

  /** AbstractMethod::__construct: the step size is the total time over the step count. */
  function New(kind: Kind, n: int, t: real): (r: Result<Method, Error>)
    ensures r.Failure? <==> n == 0
    ensures r.Success? ==> r.value.kind == kind && r.value.n == n && r.value.h * (n as real) == t
  {
    if n == 0 then Failure(DivisionByZero) else Success(Method(kind, n, t / n as real))
  }

  /** EulerMethod::step: s + k1·h with k1 = deriv(s). */
  function EulerStep(h: real, s: Vec, deriv: Vec -> Vec): Vec {
    AddScaled(s, deriv(s), h)
  }

  /** RungeKutta2Method::step: s + k2·h with k2 taken at the midpoint s + k1/2·h. */
  function Rk2Step(h: real, s: Vec, deriv: Vec -> Vec): Vec {
    var k1 := deriv(s);
    var k2 := deriv(AddScaled(s, k1, h / 2.0));
    AddScaled(s, k2, h)
  }

  /** The final array_map of RungeKutta4Method::step over five arrays. */
  function Rk4Combine(s: Vec, k1: Vec, k2: Vec, k3: Vec, k4: Vec, h: real): Vec {
    seq(Max(Max(|s|, |k1|), Max(Max(|k2|, |k3|), |k4|)),
        i => At(s, i) + (At(k1, i) + 2.0 * At(k2, i) + 2.0 * At(k3, i) + At(k4, i)) / 6.0 * h)
  }

  /** RungeKutta4Method::step. */
  function Rk4Step(h: real, s: Vec, deriv: Vec -> Vec): Vec {
    var k1 := deriv(s);
    var k2 := deriv(AddScaled(s, k1, h / 2.0));
    var k3 := deriv(AddScaled(s, k2, h / 2.0));
    var k4 := deriv(AddScaled(s, k3, h));
    Rk4Combine(s, k1, k2, k3, k4, h)
  }

  /** The `step` of the chosen subclass. */
  function Step(kind: Kind, h: real, s: Vec, deriv: Vec -> Vec): Vec {
    match kind
    case Euler => EulerStep(h, s, deriv)
    case RungeKutta2 => Rk2Step(h, s, deriv)
    case RungeKutta4 => Rk4Step(h, s, deriv)
  }

  /** The states at which one step calls deriv, in call order. */
  function Stages(kind: Kind, h: real, s: Vec, deriv: Vec -> Vec): seq<Vec> {
    match kind
    case Euler => [s]
    case RungeKutta2 => [s, AddScaled(s, deriv(s), h / 2.0)]
    case RungeKutta4 =>
      var k1 := deriv(s);
      var k2 := deriv(AddScaled(s, k1, h / 2.0));
      var k3 := deriv(AddScaled(s, k2, h / 2.0));
      [s, AddScaled(s, k1, h / 2.0), AddScaled(s, k2, h / 2.0), AddScaled(s, k3, h)]
  }

  /** Number of derivative evaluations per step. */
  function StageCount(kind: Kind): nat {
    match kind
    case Euler => 1
    case RungeKutta2 => 2
    case RungeKutta4 => 4
  }

  /** deriv preserves the length of a state. */
  ghost predicate PreservesLength(deriv: Vec -> Vec) {
    forall x: Vec :: |deriv(x)| == |x|
  }

  /**
   A step calls deriv once (Euler), twice (RK2) or four times (RK4), the first time at
   s itself, and depends on deriv only through those calls.
   */
  lemma StepStages(kind: Kind, h: real, s: Vec, d1: Vec -> Vec, d2: Vec -> Vec)
    requires forall k :: 0 <= k < |Stages(kind, h, s, d1)| ==> d1(Stages(kind, h, s, d1)[k]) == d2(Stages(kind, h, s, d1)[k])
    ensures |Stages(kind, h, s, d1)| == StageCount(kind)
    ensures Stages(kind, h, s, d1)[0] == s
    ensures Stages(kind, h, s, d1) == Stages(kind, h, s, d2)
    ensures Step(kind, h, s, d1) == Step(kind, h, s, d2)
  {
    var st := Stages(kind, h, s, d1);
    match kind
    case Euler =>
      assert d1(st[0]) == d2(st[0]);
    case RungeKutta2 =>
      assert d1(st[0]) == d2(st[0]);
      assert d1(st[1]) == d2(st[1]);
    case RungeKutta4 =>
      assert d1(st[0]) == d2(st[0]);
      assert d1(st[1]) == d2(st[1]);
      assert d1(st[2]) == d2(st[2]);
      assert d1(st[3]) == d2(st[3]);
  }

  /** RK2 is an Euler step whose slope is taken at the half-step Euler point. */
  lemma Rk2IsMidpointEuler(h: real, s: Vec, deriv: Vec -> Vec)
    ensures Step(RungeKutta2, h, s, deriv) == AddScaled(s, deriv(Step(Euler, h / 2.0, s, deriv)), h)
  {
  }

  /** When deriv preserves length, so does every step. */
  lemma StepLength(kind: Kind, h: real, s: Vec, deriv: Vec -> Vec)
    requires PreservesLength(deriv)
    ensures |Step(kind, h, s, deriv)| == |s|
  {
    var k1 := deriv(s);
    var m1 := AddScaled(s, k1, h / 2.0);
    assert |deriv(m1)| == |m1|;
    var m2 := AddScaled(s, deriv(m1), h / 2.0);
    assert |deriv(m2)| == |m2|;
    var m3 := AddScaled(s, deriv(m2), h);
    assert |deriv(m3)| == |m3|;
  }

  /** A state where deriv vanishes is a fixed point of every step. */
  lemma StepFixpoint(kind: Kind, h: real, s: Vec, deriv: Vec -> Vec)
    requires deriv(s) == Zeros(|s|)
    ensures Step(kind, h, s, deriv) == s
  {
    var z := Zeros(|s|);
    assert AddScaled(s, z, h) == s;
    assert AddScaled(s, z, h / 2.0) == s;
    if kind == RungeKutta4 {
      assert Rk4Combine(s, z, z, z, z, h) == s;
    }
  }

  /** With a constant derivative c every variant makes the Euler step s + h·c. */
  lemma StepConstant(kind: Kind, h: real, s: Vec, c: Vec, deriv: Vec -> Vec)
    requires |c| == |s| && forall x: Vec :: deriv(x) == c
    ensures Step(kind, h, s, deriv) == AddScaled(s, c, h)
  {
    if kind == RungeKutta4 {
      var r := Rk4Combine(s, c, c, c, c, h);
      forall i | 0 <= i < |s|
        ensures r[i] == AddScaled(s, c, h)[i]
      {
        assert (c[i] + 2.0 * c[i] + 2.0 * c[i] + c[i]) / 6.0 * h == c[i] * h;
      }
    }
  }

  /** The first k + 1 states: s0, then one step from each state to the next. */
  function Run(kind: Kind, h: real, s0: Vec, deriv: Vec -> Vec, k: nat): (r: seq<Vec>)
    ensures |r| == k + 1
    ensures r[0] == s0
    ensures forall j :: 0 <= j < k ==> r[j + 1] == Step(kind, h, r[j], deriv)
    decreases k
  {
    if k == 0 then [s0]
    else
      var prev := Run(kind, h, s0, deriv, k - 1);
      prev + [Step(kind, h, prev[k - 1], deriv)]
  }

  /** AbstractMethod::solve: n steps from the initial state; none when n <= 0. */
  function Solve(m: Method, s0: Vec, deriv: Vec -> Vec): (r: seq<Vec>)
    ensures |r| == (if m.n > 0 then m.n + 1 else 1)
    ensures r[0] == s0
    ensures forall j :: 0 <= j < |r| - 1 ==> r[j + 1] == Step(m.kind, m.h, r[j], deriv)
  {
    Run(m.kind, m.h, s0, deriv, if m.n > 0 then m.n else 0)
  }

  /** The step applied k times to s. */
  function Iterate(kind: Kind, h: real, s: Vec, deriv: Vec -> Vec, k: nat): Vec
    decreases k
  {
    if k == 0 then s else Step(kind, h, Iterate(kind, h, s, deriv, k - 1), deriv)
  }

  lemma {:induction false} RunIterate(kind: Kind, h: real, s0: Vec, deriv: Vec -> Vec, k: nat)
    ensures Run(kind, h, s0, deriv, k)[k] == Iterate(kind, h, s0, deriv, k)
  {
    if k > 0 {
      RunIterate(kind, h, s0, deriv, k - 1);
      assert Run(kind, h, s0, deriv, k - 1)[k - 1] == Run(kind, h, s0, deriv, k)[k - 1];
    }
  }

  /** The last state of solve is the step iterated n times from the initial state. */
  lemma SolveLast(m: Method, s0: Vec, deriv: Vec -> Vec)
    requires m.n >= 1
    ensures Solve(m, s0, deriv)[m.n] == Iterate(m.kind, m.h, s0, deriv, m.n)
  {
    RunIterate(m.kind, m.h, s0, deriv, m.n);
  }

  /** From a state where deriv vanishes, every state of the solution is that state. */
  lemma SolveEquilibrium(m: Method, s0: Vec, deriv: Vec -> Vec)
    requires deriv(s0) == Zeros(|s0|)
    ensures forall j :: 0 <= j < |Solve(m, s0, deriv)| ==> Solve(m, s0, deriv)[j] == s0
  {
    var r := Solve(m, s0, deriv);
    var j := 0;
    while j < |r|
      invariant 0 <= j <= |r|
      invariant forall i :: 0 <= i < j ==> r[i] == s0
    {
      if j > 0 {
        assert r[j] == Step(m.kind, m.h, r[j - 1], deriv);
        StepFixpoint(m.kind, m.h, s0, deriv);
      }
      j := j + 1;
    }
  }

  /** Two Euler moves along the same c add their scale factors. */
  lemma AddScaledTwice(s: Vec, c: Vec, a: real, b: real)
    requires |c| == |s|
    ensures AddScaled(AddScaled(s, c, a), c, b) == AddScaled(s, c, a + b)
  {
    var l, r := AddScaled(AddScaled(s, c, a), c, b), AddScaled(s, c, a + b);
    assert |l| == |r|;
    forall i | 0 <= i < |s|
      ensures l[i] == r[i]
    {
      assert s[i] + c[i] * a + c[i] * b == s[i] + c[i] * (a + b);
    }
  }

  /** The time elapsed after k steps of size h, accumulated step by step. */
  function Elapsed(k: nat, h: real): real {
    if k == 0 then 0.0 else Elapsed(k - 1, h) + h
  }

  lemma {:induction false} ElapsedIsProduct(k: nat, h: real)
    ensures Elapsed(k, h) == h * (k as real)
  {
    if k > 0 {
      ElapsedIsProduct(k - 1, h);
      assert h * ((k - 1) as real) + h == h * (k as real);
    }
  }

  lemma {:induction false} IterateConstant(kind: Kind, h: real, s: Vec, c: Vec, deriv: Vec -> Vec, k: nat)
    requires |c| == |s| && forall x: Vec :: deriv(x) == c
    ensures Iterate(kind, h, s, deriv, k) == AddScaled(s, c, Elapsed(k, h))
  {
    if k == 0 {
      assert AddScaled(s, c, 0.0) == s;
    } else {
      var prev := Iterate(kind, h, s, deriv, k - 1);
      IterateConstant(kind, h, s, c, deriv, k - 1);
      assert |prev| == |c|;
      StepConstant(kind, h, prev, c, deriv);
      AddScaledTwice(s, c, Elapsed(k - 1, h), h);
    }
  }

  /**
   With a constant derivative c, a method built for n >= 1 steps over time t ends at
   s0 + t·c, whatever the variant.
   */
  lemma SolveConstant(kind: Kind, n: int, t: real, s0: Vec, c: Vec, deriv: Vec -> Vec)
    requires n >= 1 && |c| == |s0| && forall x: Vec :: deriv(x) == c
    ensures New(kind, n, t).Success?
    ensures Solve(New(kind, n, t).value, s0, deriv)[n] == AddScaled(s0, c, t)
  {
    var m := New(kind, n, t).value;
    SolveLast(m, s0, deriv);
    IterateConstant(kind, m.h, s0, c, deriv, n);
    ElapsedIsProduct(n, m.h);
    assert Elapsed(n, m.h) == t;
  }
}
