/**
 The equations of motion of a spinning ball (DifferentialEquations\AbstractEquations and
 its softball and baseball subclasses). A state is [x, y, z, v_x, v_y, v_z]; its
 derivative is the velocity followed by the acceleration from gravity, quadratic drag
 against the velocity and a Magnus lift in the y-z plane at angle alpha.
 */
module DifferentialEquations {
  import opened RealMath
  import opened Vectors

  /** The coefficients held by an equations object; `a` is the cross-sectional area. */
  datatype Equations = Equations(cd: real, cl: real, alpha: real, m: real, a: real, g: real, rho: real)

  const DefaultGravity: real := 9.813
  const DefaultAirDensity: real := 1.204

  /** AbstractEquations::__construct: the area is that of the disc of circumference c. */
  function New(e: Elementary, cd: real, cl: real, alpha: real, m: real, c: real,
               g: real := DefaultGravity, rho: real := DefaultAirDensity): (r: Equations)
    requires Valid(e)
    ensures r.cd == cd && r.cl == cl && r.alpha == alpha && r.m == m && r.g == g && r.rho == rho
    ensures var radius := c / (2.0 * e.pi); r.a == e.pi * radius * radius
  {
    var area := (c * c) / (4.0 * e.pi);
    DiscArea(e.pi, c);
    Equations(cd, cl, alpha, m, area, g, rho)
  }

  lemma DiscArea(pi: real, c: real)
    requires pi > 0.0
    ensures (c * c) / (4.0 * pi) == pi * (c / (2.0 * pi)) * (c / (2.0 * pi))
  {
    var r := c / (2.0 * pi);
    assert r * (2.0 * pi) == c;
    assert c * c == 4.0 * pi * (pi * r * r);
  }

  /** SoftballEquations::__construct: a 0.188 kg ball of circumference 0.305 m. */
  function Softball(e: Elementary, cd: real, cl: real, alpha: real): (r: Equations)
    requires Valid(e)
    ensures r.m == 0.188 && r.g == DefaultGravity && r.rho == DefaultAirDensity
    ensures r.cd == cd && r.cl == cl && r.alpha == alpha
    ensures r.a * (4.0 * e.pi) == 0.305 * 0.305
  {
    New(e, cd, cl, alpha, 0.188, 0.305)
  }

  /** BaseballEquations::__construct: a 0.145 kg ball of circumference 0.232 m. */
  function Baseball(e: Elementary, cd: real, cl: real, alpha: real): (r: Equations)
    requires Valid(e)
    ensures r.m == 0.145 && r.g == DefaultGravity && r.rho == DefaultAirDensity
    ensures r.cd == cd && r.cl == cl && r.alpha == alpha
    ensures r.a * (4.0 * e.pi) == 0.232 * 0.232
  {
    New(e, cd, cl, alpha, 0.145, 0.232)
  }

  /** |v|² for the velocity part of a state (missing entries read as 0, as in PHP). */
  function SpeedSquared(state: Vec): (r: real)
    ensures r >= 0.0
  {
    At(state, 3) * At(state, 3) + At(state, 4) * At(state, 4) + At(state, 5) * At(state, 5)
  }

  /** ½·C_D·ρ·A, the factor of the drag force. */
  function DragCoefficient(eq: Equations): real {
    eq.cd * eq.rho * eq.a / 2.0
  }

  /** ½·C_L·ρ·A, the factor of the Magnus force. */
  function LiftCoefficient(eq: Equations): real {
    eq.cl * eq.rho * eq.a / 2.0
  }

  /**
   AbstractEquations::deriv. Division by the mass follows the source; a mass of zero
   would make PHP throw, and both concrete subclasses fix a non-zero mass.
   */
  function Deriv(e: Elementary, eq: Equations, state: Vec): (r: Vec)
    requires eq.m != 0.0
    ensures |r| == 6
    ensures r[0] == At(state, 3) && r[1] == At(state, 4) && r[2] == At(state, 5)
  {
    var vx, vy, vz := At(state, 3), At(state, 4), At(state, 5);
    var v := e.sqrt(vx * vx + vy * vy + vz * vz);
    var kd, kl := DragCoefficient(eq), LiftCoefficient(eq);
    var ax := (- kd * vx * v) / eq.m;
    var ay := (- eq.m * eq.g - kd * vy * v + kl * (v * v) * e.sin(eq.alpha)) / eq.m;
    var az := (- kd * vz * v + kl * (v * v) * e.cos(eq.alpha)) / eq.m;
    [vx, vy, vz, ax, ay, az]
  }

  /** |v|: the speed of a state. */
  function Speed(e: Elementary, state: Vec): real {
    e.sqrt(SpeedSquared(state))
  }

  /** The drag deceleration per unit of velocity: ½·C_D·ρ·A·|v| / m. */
  function DragFactor(e: Elementary, eq: Equations, state: Vec): real
    requires eq.m != 0.0
  {
    DragCoefficient(eq) * Speed(e, state) / eq.m
  }

  /** The Magnus acceleration's magnitude: ½·C_L·ρ·A·|v|² / m. */
  function LiftFactor(eq: Equations, state: Vec): real
    requires eq.m != 0.0
  {
    LiftCoefficient(eq) * SpeedSquared(state) / eq.m
  }

  lemma AccelDrag(kd: real, u: real, v: real, m: real)
    requires m != 0.0
    ensures (- kd * u * v) / m == - (kd * v / m) * u
  {
  }

  lemma AccelY(m: real, g: real, kd: real, kl: real, u: real, v: real, w: real, s: real)
    requires m != 0.0 && v * v == w
    ensures (- m * g - kd * u * v + kl * (v * v) * s) / m == - g - (kd * v / m) * u + (kl * w / m) * s
  {
    assert (- m * g - kd * u * v + kl * (v * v) * s) / m == (- m * g) / m - (kd * u * v) / m + (kl * w * s) / m;
    assert (- m * g) / m == - g;
  }

  lemma AccelZ(m: real, kd: real, kl: real, u: real, v: real, w: real, c: real)
    requires m != 0.0 && v * v == w
    ensures (- kd * u * v + kl * (v * v) * c) / m == - (kd * v / m) * u + (kl * w / m) * c
  {
    assert (- kd * u * v + kl * (v * v) * c) / m == - (kd * u * v) / m + (kl * w * c) / m;
  }

  /**
   The acceleration is gravity, plus drag against the velocity in proportion to the speed,
   plus lift of magnitude ∝ |v|² pointing along (0, sin alpha, cos alpha).
   */
  lemma DerivForces(e: Elementary, eq: Equations, state: Vec)
    requires Valid(e) && eq.m != 0.0
    ensures var r, d, l := Deriv(e, eq, state), DragFactor(e, eq, state), LiftFactor(eq, state);
      && r[3] == - d * At(state, 3)
      && r[4] == - eq.g - d * At(state, 4) + l * e.sin(eq.alpha)
      && r[5] == - d * At(state, 5) + l * e.cos(eq.alpha)
  {
    var w := SpeedSquared(state);
    var v := Speed(e, state);
    assert v * v == w;
    var kd, kl := DragCoefficient(eq), LiftCoefficient(eq);
    AccelDrag(kd, At(state, 3), v, eq.m);
    AccelY(eq.m, eq.g, kd, kl, At(state, 4), v, w, e.sin(eq.alpha));
    AccelZ(eq.m, kd, kl, At(state, 5), v, w, e.cos(eq.alpha));
  }

  /** Only the velocity part of a state matters: the position never enters the derivative. */
  lemma DerivIgnoresPosition(e: Elementary, eq: Equations, s: Vec, t: Vec)
    requires eq.m != 0.0
    requires At(s, 3) == At(t, 3) && At(s, 4) == At(t, 4) && At(s, 5) == At(t, 5)
    ensures Deriv(e, eq, s) == Deriv(e, eq, t)
  {
    var ds, dt := Deriv(e, eq, s), Deriv(e, eq, t);
    assert SpeedSquared(s) == SpeedSquared(t);
    assert forall i :: 0 <= i < 6 ==> ds[i] == dt[i];
  }

  /** Without drag or lift coefficients, the ball only falls: acceleration (0, -g, 0). */
  lemma DerivFreeFall(e: Elementary, eq: Equations, state: Vec)
    requires Valid(e) && eq.m != 0.0 && eq.cd == 0.0 && eq.cl == 0.0
    ensures Deriv(e, eq, state)[3..] == [0.0, - eq.g, 0.0]
  {
    DerivForces(e, eq, state);
    assert DragFactor(e, eq, state) == 0.0;
    assert LiftFactor(eq, state) == 0.0;
  }

  /** A ball at rest feels gravity alone, whatever its coefficients. */
  lemma DerivAtRest(e: Elementary, eq: Equations, state: Vec)
    requires Valid(e) && eq.m != 0.0
    requires At(state, 3) == 0.0 && At(state, 4) == 0.0 && At(state, 5) == 0.0
    ensures Deriv(e, eq, state)[3..] == [0.0, - eq.g, 0.0]
  {
    DerivForces(e, eq, state);
    assert SpeedSquared(state) == 0.0;
    SqrtZero(e);
    assert DragFactor(e, eq, state) == 0.0;
    assert LiftFactor(eq, state) == 0.0;
  }

  /**
   With no lift, the acceleration beyond gravity is a non-negative multiple of minus the
   velocity: drag never pushes the ball along its motion.
   */
  lemma DragOpposesVelocity(e: Elementary, eq: Equations, state: Vec)
    requires Valid(e) && eq.m > 0.0 && eq.cl == 0.0 && eq.cd >= 0.0 && eq.rho >= 0.0 && eq.a >= 0.0
    ensures var r, d := Deriv(e, eq, state), DragFactor(e, eq, state);
      d >= 0.0 && r[3] == - d * At(state, 3) && r[4] + eq.g == - d * At(state, 4) && r[5] == - d * At(state, 5)
  {
    DerivForces(e, eq, state);
    assert LiftFactor(eq, state) == 0.0;
    var v := Speed(e, state);
    NonNegativeProduct(eq.cd, eq.rho);
    NonNegativeProduct(eq.cd * eq.rho, eq.a);
    NonNegativeProduct(DragCoefficient(eq), v);
    NonNegativeQuotient(DragCoefficient(eq) * v, eq.m);
  }

  lemma NonNegativeQuotient(a: real, m: real)
    requires a >= 0.0 && m > 0.0
    ensures a / m >= 0.0
  {
    assert (a / m) * m == a;
  }

  /**
   The lift coefficient contributes exactly ½·C_L·ρ·A·|v|²/m along (0, sin alpha, cos alpha)
   and nothing along x: comparing with the same ball without lift.
   */
  lemma LiftContribution(e: Elementary, eq: Equations, state: Vec)
    requires Valid(e) && eq.m != 0.0
    ensures var r, r0, l := Deriv(e, eq, state), Deriv(e, eq.(cl := 0.0), state), LiftFactor(eq, state);
      && r[..3] == r0[..3]
      && r[3] == r0[3]
      && r[4] - r0[4] == l * e.sin(eq.alpha)
      && r[5] - r0[5] == l * e.cos(eq.alpha)
  {
    DerivForces(e, eq, state);
    DerivForces(e, eq.(cl := 0.0), state);
    assert LiftFactor(eq.(cl := 0.0), state) == 0.0;
    assert DragFactor(e, eq.(cl := 0.0), state) == DragFactor(e, eq, state);
  }
}
