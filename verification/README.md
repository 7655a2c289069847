# Pitch trajectory engine, modelled in Dafny

This project models the trajectory engine of a softball pitch-tracking application (the
PHP classes under `src/Service/`). Given a pitch's release point, release velocity,
measured end point, spin angle and flight time, the engine does five things:

1. It searches a grid of drag and lift coefficients `(c_d, c_l)` with a neighbourhood
   (pattern) search.
2. For each candidate it integrates the equations of motion of a spinning ball with a
   fixed-step Runge-Kutta method, and takes the distance from the simulated end point
   to the measured one.
3. It stores the best coefficients and that distance (`delta`).
4. It fits a cubic Bezier curve to the 100 simulated states by least squares on the
   Bernstein basis.
5. It compares two pitches ("pitch tunnelling") through their relative Bezier curves:
   `compHalf`, `compLast` and `compDiff`.

The project has one Dafny module per source class:

| file | module | models |
|---|---|---|
| `de_casteljau.dfy` | `DeCasteljausAlgorithm` | `DeCasteljausAlgorithm::calc`: the in-place triple loop, proved equal to the recursive Bezier definition |
| `bernstein.dfy` | `BernsteinPolynomial` | `BernsteinPolynomial::calc` with `Combinatorics::combinations` as the binomial coefficient |
| `distance.dfy` | `DistanceMetric` | the Euclidean, Manhattan and Chebyshev distances |
| `numerical_method.dfy` | `NumericalMethod` | `AbstractMethod` (constructor, `solve`) and the Euler, RK2 and RK4 `step`s |
| `neighborhood.dfy` | `NeighborhoodSearch` | `AbstractNeighborhood::approx` and `VonNeumannNeighborhood` |
| `equations.dfy` | `DifferentialEquations` | `AbstractEquations` (area, `deriv`) and the softball and baseball presets |
| `bezier_fit.dfy` | `BezierFit` | the Bernstein design matrix and the least-squares control points of `PitchService::calc` |
| `pitch_service.dfy` | `PitchService` | `calc`, `compHalf`, `compLast`, `compDiff` |
| `vectors.dfy`, `real_math.dfy`, `wrappers.dfy` | `Vectors`, `RealMath`, `Wrappers` | shared vectors, real lemmas, `Option`/`Result` |

## How the model reads the PHP

- **Numbers.** All arithmetic is over Dafny's exact `real`.
- **Elementary functions.** `sqrt`, `sin`, `cos` and `pi` are fields of an `Elementary`
  value passed as a parameter. `RealMath.Valid` states the only facts used about them:
  `sqrt(x) >= 0`, `sqrt(x)² = x` for `x >= 0`, and `pi > 0`. `sqrt(0) = 0` is derived.
- **Array reads.** PHP reads a missing array element as `null`, which is 0 in
  arithmetic, and `array_map` pads the shorter array. `Vectors.At` reads 0 outside a
  sequence, and `Vectors.Sub` and `Vectors.AddScaled` pad to the longer operand. This
  matters: `calc` measures the distance between the 3-component target and a
  6-component state, and the distance loops only over the first argument.
- **Errors become results.**
  - `t / 0` in the integrator's constructor is a `Failure`.
  - `max([])` in the Chebyshev distance is `None`.
  - When the neighbourhood search never assigns `$bestX` (the centre is already a local
    minimum), the search returns `Unassigned`, and `calc` returns `Failure(SearchUnassigned)`.
- **Loops against functions.** Each loop is proved equal to a functional definition.
  De Casteljau's in-place passes equal the recursive `Eval`. The integrator's list of
  states ends at the iterated step `Iterate`. The search's `while` loop equals the
  best-improvement walk `Descent`, which repeats one `Scan` round at a time and so fixes
  which point `approx` returns.
- **Parameters for what is not shown.**
  - The derivative function of the integrator and the objective of the search are
    function parameters.
  - The Moore neighbourhood's direction list is a parameter.
  - MathPHP's `(BᵀB)⁻¹Bᵀ` is a parameter `pinv` that may fail with `None`.

## Model

| member | source | states |
|---|---|---|
| DeCasteljausAlgorithm.Interpolate | src/Service/DeCasteljausAlgorithm.php:40-42 | the coordinate loop replaces points[j] by (1-t)·points[j] + t·points[j+1] and leaves every other point alone |
| DeCasteljausAlgorithm.Pass | src/Service/DeCasteljausAlgorithm.php:39-43 | one pass interpolates points 0..m-1 with their right neighbours as they were before the pass, and leaves the rest alone |
| DeCasteljausAlgorithm.Calc | src/Service/DeCasteljausAlgorithm.php:35-47 | the in-place loops return the recursive Bezier point B(P0..Pk) = (1-t)·B(P0..Pk-1) + t·B(P1..Pk); one control point is returned unchanged; an empty list is excluded |
| DeCasteljausAlgorithm.EvalAtZero | src/Service/DeCasteljausAlgorithm.php:38-46 | at t = 0 the curve is at the first control point |
| DeCasteljausAlgorithm.EvalAtOne | src/Service/DeCasteljausAlgorithm.php:38-46 | at t = 1 the curve is at the last control point, for control points of one dimension |
| DeCasteljausAlgorithm.EvalDimension | src/Service/DeCasteljausAlgorithm.php:40-41 | the curve point has the control points' common dimension |
| DeCasteljausAlgorithm.EvalTranslate | src/Service/DeCasteljausAlgorithm.php:41 | translating all control points by c translates the curve point by c |
| DeCasteljausAlgorithm.EvalConstant | src/Service/DeCasteljausAlgorithm.php:41 | if every control point is p, the curve is p for every t |
| BernsteinPolynomial.BinomialAbove | src/Service/BernsteinPolynomial.php:39 | C(n, k) = 0 when k > n |
| BernsteinPolynomial.BinomialDiagonal | src/Service/BernsteinPolynomial.php:39 | C(n, n) = 1 |
| BernsteinPolynomial.BinomialFactorial | src/Service/BernsteinPolynomial.php:39 | Pascal's rule gives the factorial formula C(n, k)·k!·(n-k)! = n! |
| BernsteinPolynomial.BinomialSymmetric | src/Service/BernsteinPolynomial.php:39 | C(n, k) = C(n, n-k) |
| BernsteinPolynomial.Calc | src/Service/BernsteinPolynomial.php:38-40 | C(n, i)·t^i·(1-t)^(n-i) with PHP's 0**0 = 1; it has no contract of its own, and CalcAtZero, CalcAtOne, CalcNonNegative and CalcSymmetric below constrain it |
| BernsteinPolynomial.CalcAtZero | src/Service/BernsteinPolynomial.php:38-40 | at t = 0 the basis value is 1 for i = 0 (PHP's 0**0 = 1) and 0 for 0 < i <= n |
| BernsteinPolynomial.CalcAtOne | src/Service/BernsteinPolynomial.php:38-40 | at t = 1 the basis value is 1 for i = n and 0 for i < n |
| BernsteinPolynomial.CalcNonNegative | src/Service/BernsteinPolynomial.php:38-40 | on [0, 1] every basis value is non-negative |
| BernsteinPolynomial.CalcSymmetric | src/Service/BernsteinPolynomial.php:38-40 | B(i, n, t) = B(n-i, n, 1-t) |
| DistanceMetric.Euclidean | src/Service/DistanceMetric/EuclideanDistance.php:39-47 | the square root of the summed squared differences over the first point's coordinates; it has no contract of its own, and EuclideanSquared, EuclideanZeroIff, EuclideanSymmetric and EuclideanLeManhattan constrain it |
| DistanceMetric.EuclideanSquared | src/Service/DistanceMetric/EuclideanDistance.php:39-47 | the distance is non-negative and its square is the sum of squared coordinate differences over the first point's coordinates |
| DistanceMetric.EuclideanZeroIff | src/Service/DistanceMetric/EuclideanDistance.php:39-47 | for equal lengths the distance is 0 exactly when the points are equal |
| DistanceMetric.EuclideanSymmetric | src/Service/DistanceMetric/EuclideanDistance.php:39-47 | for equal lengths d(a, b) = d(b, a) |
| DistanceMetric.EuclideanEmpty | src/Service/DistanceMetric/EuclideanDistance.php:40-46 | a zero-length first point gives 0 |
| DistanceMetric.Manhattan | src/Service/DistanceMetric/ManhattanDistance.php:39-47 | the distance is non-negative and 0 for a zero-length first point |
| DistanceMetric.ManhattanZeroIff | src/Service/DistanceMetric/ManhattanDistance.php:39-47 | for equal lengths the distance is 0 exactly when the points are equal |
| DistanceMetric.ManhattanSymmetric | src/Service/DistanceMetric/ManhattanDistance.php:39-47 | for equal lengths d(a, b) = d(b, a) |
| DistanceMetric.ManhattanTriangle | src/Service/DistanceMetric/ManhattanDistance.php:39-47 | for equal lengths d(a, b) <= d(a, c) + d(c, b) |
| DistanceMetric.MaxAbs | src/Service/DistanceMetric/ChebyshevDistance.php:42-46 | the running maximum bounds every abs(a_i - b_i) seen and is attained by one of them |
| DistanceMetric.Chebyshev | src/Service/DistanceMetric/ChebyshevDistance.php:39-47 | an empty first point has no result (max of an empty list); otherwise the result bounds every abs(a_i - b_i) and some index attains it |
| DistanceMetric.ChebyshevZeroIff | src/Service/DistanceMetric/ChebyshevDistance.php:39-47 | for equal non-zero lengths the distance is 0 exactly when the points are equal |
| DistanceMetric.ChebyshevSymmetric | src/Service/DistanceMetric/ChebyshevDistance.php:39-47 | for equal lengths d(a, b) = d(b, a) |
| DistanceMetric.ChebyshevLeManhattan | src/Service/DistanceMetric/ChebyshevDistance.php:46 | the Chebyshev distance is at most the Manhattan distance |
| DistanceMetric.ChebyshevLeEuclidean | src/Service/DistanceMetric/ChebyshevDistance.php:46 | the Chebyshev distance is at most the Euclidean distance |
| DistanceMetric.EuclideanLeManhattan | src/Service/DistanceMetric/EuclideanDistance.php:42-46 | the Euclidean distance is at most the Manhattan distance |
| NumericalMethod.New | src/Service/NumericalMethod/AbstractMethod.php:36-39 | n = 0 is a division error; otherwise h·n = t |
| NumericalMethod.EulerStep | src/Service/NumericalMethod/EulerMethod.php:37-43 | s + h·deriv(s) componentwise; constrained through Step by StepStages, StepFixpoint, StepConstant and StepLength |
| NumericalMethod.Rk2Step | src/Service/NumericalMethod/RungeKutta2Method.php:37-44 | s + h·k2 with k2 taken at the midpoint s + (h/2)·k1; constrained through Step by Rk2IsMidpointEuler, StepFixpoint and StepConstant |
| NumericalMethod.Rk4Step | src/Service/NumericalMethod/RungeKutta4Method.php:37-46 | s + (k1 + 2k2 + 2k3 + k4)/6·h with the classical stages; constrained through Step by StepStages, StepFixpoint and StepConstant |
| NumericalMethod.Step | src/Service/NumericalMethod/AbstractMethod.php:62-63 | the `step` of the chosen subclass, as `solve` calls it |
| NumericalMethod.StepStages | src/Service/NumericalMethod/RungeKutta4Method.php:37-46 | a step evaluates deriv once (Euler), twice (RK2) or four times (RK4), first at the state itself, and depends on deriv only at those stage states |
| NumericalMethod.Rk2IsMidpointEuler | src/Service/NumericalMethod/RungeKutta2Method.php:37-44 | the RK2 step is s + h·deriv(m), where m is the Euler half step from s |
| NumericalMethod.StepLength | src/Service/NumericalMethod/EulerMethod.php:37-43 | when deriv preserves length, every step variant preserves length |
| NumericalMethod.StepFixpoint | src/Service/NumericalMethod/RungeKutta4Method.php:37-46 | a state where deriv is zero is left unchanged by every step variant |
| NumericalMethod.StepConstant | src/Service/NumericalMethod/RungeKutta4Method.php:43-45 | with a constant derivative c every step variant gives s + h·c (the RK4 weights sum to 6) |
| NumericalMethod.Run | src/Service/NumericalMethod/AbstractMethod.php:60-66 | k steps give k+1 states, starting at the initial state, each the step of the previous |
| NumericalMethod.Solve | src/Service/NumericalMethod/AbstractMethod.php:59-67 | n+1 states for n >= 1 and only the initial state for n <= 0; state k+1 is the step of state k |
| NumericalMethod.RunIterate | src/Service/NumericalMethod/AbstractMethod.php:62-66 | the last collected state is the step iterated k times |
| NumericalMethod.SolveLast | src/Service/NumericalMethod/AbstractMethod.php:62-66 | the last state of solve is the step iterated n times from the initial state |
| NumericalMethod.SolveEquilibrium | src/Service/NumericalMethod/AbstractMethod.php:59-67 | from a state where deriv vanishes, every state of the solution is that state |
| NumericalMethod.IterateConstant | src/Service/NumericalMethod/AbstractMethod.php:62-63 | with a constant derivative c, k steps reach s + (elapsed time)·c |
| NumericalMethod.SolveConstant | src/Service/NumericalMethod/AbstractMethod.php:36-67 | with a constant derivative c and n >= 1 steps over time t, the last state is s0 + t·c whatever the variant |
| NeighborhoodSearch.VonNeumannDirs | src/Service/NeighborhoodSearch/VonNeumannNeighborhood.php:40 | four directions, exactly the unit moves along one axis |
| NeighborhoodSearch.VonNeumann | src/Service/NeighborhoodSearch/VonNeumannNeighborhood.php:39-43 | bounds and steps reach the search unchanged, with the four unit directions |
| NeighborhoodSearch.VonNeumannSymmetric | src/Service/NeighborhoodSearch/VonNeumannNeighborhood.php:40 | the directions are closed under negation and none is the zero move |
| NeighborhoodSearch.Scan | src/Service/NeighborhoodSearch/AbstractNeighborhood.php:70-79 | a foreach round never raises min, ends at or below every neighbour's value, and keeps the previous best when nothing is strictly lower |
| NeighborhoodSearch.ScanFirstLeast | src/Service/NeighborhoodSearch/AbstractNeighborhood.php:70-79 | when a round improves, its best is the first direction, in list order, that reaches the new minimum (strict < keeps the earlier of tied directions) |
| NeighborhoodSearch.ScanPicksFirstLeast | src/Service/NeighborhoodSearch/AbstractNeighborhood.php:73-78 | the first least neighbour below min is what the round returns |
| NeighborhoodSearch.ScanNoImprovement | src/Service/NeighborhoodSearch/AbstractNeighborhood.php:73-78 | a round with no neighbour strictly below min changes nothing |
| NeighborhoodSearch.MoveLattice | src/Service/NeighborhoodSearch/AbstractNeighborhood.php:71 | a move from lattice point (i, j) lands on lattice point (i+dx, j+dy) |
| NeighborhoodSearch.BackMove | src/Service/NeighborhoodSearch/AbstractNeighborhood.php:85-86 | stepping back along the move that was taken returns to the previous point |
| NeighborhoodSearch.VariantDrops | src/Service/NeighborhoodSearch/AbstractNeighborhood.php:69-87 | accepting a strictly lower point shrinks the finite set of in-rectangle lattice points below the current minimum |
| NeighborhoodSearch.Advance | src/Service/NeighborhoodSearch/AbstractNeighborhood.php:73-86 | an accepted move goes along a listed direction to a lattice point with a strictly lower objective |
| NeighborhoodSearch.WalkStep | src/Service/NeighborhoodSearch/AbstractNeighborhood.php:70-86 | a round from an in-rectangle lattice point that ends elsewhere moves one listed direction to a strictly lower lattice point, and the loop's variant drops |
| NeighborhoodSearch.WalkFrom | src/Service/NeighborhoodSearch/AbstractNeighborhood.php:63-90 | from any state the loop reaches, the walk gives up only in the first round at a centre with no lower neighbour, and any point it returns is on the lattice, below the centre unless it is the centre, a local minimum when inside, and one listed move from the rectangle when outside |
| NeighborhoodSearch.Descent | src/Service/NeighborhoodSearch/AbstractNeighborhood.php:63-90 | the best-improvement walk from the centre: Unassigned exactly when the centre is inside and no neighbour is strictly lower; a centre outside is returned as is; otherwise the lattice, improvement, local-minimum and one-move-outside properties above |
| NeighborhoodSearch.DescentExample | src/Service/NeighborhoodSearch/AbstractNeighborhood.php:70-86 | with values 10 at the centre, 5 to the left and 3 to the right, the first round moves past the left neighbour to the right one and the search ends there |
| NeighborhoodSearch.Approx | src/Service/NeighborhoodSearch/AbstractNeighborhood.php:63-90 | the loop terminates and returns exactly the walk `Descent`, hence Unassigned exactly when the centre is inside with no strictly lower neighbour, and otherwise a lattice point below the centre (unless it is the centre) that is a local minimum when inside |
| DifferentialEquations.New | src/Service/DifferentialEquations/AbstractEquations.php:46-54 | coefficients pass through, g and rho default to 9.813 and 1.204, and the area is pi·r² for the radius r = c/(2·pi) |
| DifferentialEquations.Softball | src/Service/DifferentialEquations/SoftballEquations.php:36-38 | mass 0.188, area·4pi = 0.305², default g and rho, coefficients passed through |
| DifferentialEquations.Baseball | src/Service/DifferentialEquations/BaseballEquations.php:36-38 | mass 0.145, area·4pi = 0.232², default g and rho, coefficients passed through |
| DifferentialEquations.Deriv | src/Service/DifferentialEquations/AbstractEquations.php:74-84 | six components, the first three being the state's velocity |
| DifferentialEquations.DerivForces | src/Service/DifferentialEquations/AbstractEquations.php:79-81 | acceleration = gravity − (drag factor)·velocity + (lift factor)·(0, sin alpha, cos alpha) |
| DifferentialEquations.DerivIgnoresPosition | src/Service/DifferentialEquations/AbstractEquations.php:75 | states with the same velocity have the same derivative |
| DifferentialEquations.DerivFreeFall | src/Service/DifferentialEquations/AbstractEquations.php:79-81 | with c_d = c_l = 0 the acceleration is (0, -g, 0) |
| DifferentialEquations.DerivAtRest | src/Service/DifferentialEquations/AbstractEquations.php:77-81 | at zero velocity the acceleration is (0, -g, 0) |
| DifferentialEquations.DragOpposesVelocity | src/Service/DifferentialEquations/AbstractEquations.php:79 | without lift and with non-negative c_d, rho, area and positive mass, the non-gravity acceleration is a non-negative multiple of minus the velocity |
| DifferentialEquations.LiftContribution | src/Service/DifferentialEquations/AbstractEquations.php:80-81 | lift adds l·sin alpha to a_y and l·cos alpha to a_z and nothing to a_x or the velocity part |
| BezierFit.DesignMatrix | src/Service/PitchService.php:68-74 | one solution state gives no matrix (the 1/(count-1) division); otherwise count rows of four entries |
| BezierFit.SampleRange | src/Service/PitchService.php:72 | the sample parameters j/(count-1) run from 0 at the first row to 1 at the last |
| BezierFit.BasisValues | src/Service/PitchService.php:72 | the row entries are the cubic Bernstein polynomials (1-t)³, 3t(1-t)², 3t²(1-t), t³ |
| BezierFit.CubicBernsteinForm | src/Service/PitchService.php:72 | the Bernstein row at t dotted with a coordinate column of four control points is De Casteljau's point at t |
| BezierFit.BasisRowSum | src/Service/PitchService.php:72 | each basis row sums to 1 |
| BezierFit.BasisRowRange | src/Service/PitchService.php:72 | on [0, 1] each basis entry is in [0, 1] |
| BezierFit.DesignMatrixShape | src/Service/PitchService.php:68-74 | the first row is [1,0,0,0], the last [0,0,0,1], every row sums to 1 with entries in [0, 1] |
| BezierFit.DesignMatrixSamplesCurve | src/Service/PitchService.php:68-74 | row j times the control points is the curve at j/(count-1) |
| BezierFit.MatVec | src/Service/PitchService.php:79-81 | one entry per matrix row |
| BezierFit.DotMatVec | src/Service/PitchService.php:79-81 | a row times (matrix times vector) equals (row times matrix) times vector |
| BezierFit.FitControlPoints | src/Service/PitchService.php:76-85 | no result exactly when the solver fails or returns fewer than four rows; otherwise four 3-D points whose coordinate m is pseudo-inverse row k times solution column m |
| BezierFit.FitRecoversCubic | src/Service/PitchService.php:76-85 | if the solver gives a left inverse of the design matrix and the solution lies on a cubic curve at the samples, the fit returns exactly that curve's control points |
| PitchService.CalibrationSearch | src/Service/PitchService.php:47 | the search starts at (0.35, 0.5) inside [0.2, 0.5] × [0, 1] with steps 0.01 |
| PitchService.Rk4 | src/Service/PitchService.php:48 | RK4 with 99 steps of size t/99 |
| PitchService.Trajectory | src/Service/PitchService.php:50-62 | 100 states starting at release position followed by release velocity |
| PitchService.Deviation | src/Service/PitchService.php:57 | the objective is non-negative |
| PitchService.CalibrationWalk | src/Service/PitchService.php:47-58 | the calibration walk from (0.35, 0.5) gives up exactly when no move from there lowers the objective, and a point it returns is calibrated |
| PitchService.Calibrate | src/Service/PitchService.php:47-58 | the search returns exactly the calibration walk's point, and None exactly when it gives up; hence failure exactly when no move from (0.35, 0.5) lowers the objective, and otherwise a calibrated point |
| PitchService.Calc | src/Service/PitchService.php:46-86 | failure when the search is unassigned (exactly then) or the solver fails; on success only c_d, c_l, delta and xyz_1..3 change, delta is the objective at the stored coefficients, the stored (c_d, c_l) is exactly the point of the calibration walk under the deviation objective (so calibrated), and xyz_1..3 are fitted points 1-3 (point 0 dropped, xyz_3 not forced to xyz_t) |
| PitchService.ObjectiveAt | src/Service/PitchService.php:52-58 | the search objective at (c_d, c_l) is the stored deviation for those coefficients |
| PitchService.NoDescentOnGrid | src/Service/PitchService.php:47 | the search's give-up condition, written out on the 0.01 grid around (0.35, 0.5) |
| PitchService.CalibratedOnGrid | src/Service/PitchService.php:47 | calibrated coefficients are (0.35 + 0.01·i, 0.5 + 0.01·j), improve on (0.35, 0.5) unless equal to it, and inside the rectangle no Moore move improves them |
| PitchService.Relative | src/Service/PitchService.php:97-109 | four relative control points, the first of which is the zero vector |
| PitchService.RelativeCurve | src/Service/PitchService.php:97-109 | the relative curve is the stored curve minus the release point, at every t |
| PitchService.GapSum | src/Service/PitchService.php:111-118 | the accumulated gap is non-negative |
| PitchService.HalfScore | src/Service/PitchService.php:120-122 | the score is in [0, 1] |
| PitchService.CompHalf | src/Service/PitchService.php:96-123 | the sampling loop computes the mean-gap score, which lies in [0, 1] |
| PitchService.HalfScoreSelf | src/Service/PitchService.php:96-123 | a pitch compared with itself scores 1 |
| PitchService.HalfScoreSymmetric | src/Service/PitchService.php:96-123 | for release points of one dimension the score does not depend on the order of the pitches |
| PitchService.LastScore | src/Service/PitchService.php:151-153 | the score is in [0, 1] |
| PitchService.CompLast | src/Service/PitchService.php:133-154 | the end-point score, which lies in [0, 1] |
| PitchService.LastScoreEndpoints | src/Service/PitchService.php:148-153 | the score is min(1, dist((A3 − A0), (B3 − B0)) / 0.432) with dist the Euclidean distance for control points of one dimension |
| PitchService.LastScoreSelf | src/Service/PitchService.php:133-154 | a pitch compared with itself scores 0 |
| PitchService.LastScoreSymmetric | src/Service/PitchService.php:133-154 | for release points of one dimension the score does not depend on the order of the pitches |
| PitchService.CompDiff | src/Service/PitchService.php:164-166 | the release-point distance is non-negative |
| PitchService.CompDiffZeroIff | src/Service/PitchService.php:164-166 | for one dimension it is 0 exactly when the release points are equal |
| PitchService.CompDiffSymmetric | src/Service/PitchService.php:164-166 | for one dimension it does not depend on the order of the pitches |

## Left out

- Controllers, entities and repositories: request plumbing and persistence. The pitch is a plain record of the fields the service reads and writes.
- `MooreNeighborhood` is not part of this model. Its direction list is a parameter of `PitchService.Calc`, and no order is assumed.
- MathPHP's transpose, multiply and inverse (`src/Service/PitchService.php:76-77`) are a foreign linear-algebra call. They are the parameter `pinv`, and the only failures modelled are "no result" and "fewer than four rows". The vector multiply on lines 79-81 is modelled.
- Floating point: IEEE rounding, integration error and calibration accuracy cannot be stated over exact reals. The reference calibration numbers are not reproduced.
- `sqrt`, `sin`, `cos` and `pi` are uninterpreted beyond `RealMath.Valid`.
- The Euclidean triangle inequality would need Cauchy-Schwarz and is not proved. The Manhattan one is.
- BernsteinPolynomial.Calc: requires i <= n, because `Combinatorics::combinations` rejects choosing more than n.
- DifferentialEquations.Deriv: requires a non-zero mass, because PHP throws on division by zero. Both presets have non-zero masses.
- DeCasteljausAlgorithm.Calc: requires a non-empty control list, because `$points[0]` does not exist otherwise.
- NeighborhoodSearch.VonNeumannDirs: the contract states which four directions there are, not their order. The order only matters for ties, and `ScanFirstLeast` states the tie-break for any direction list.
- PitchService.Calc: after an unassigned `$bestX`, PHP goes on with `null` coefficients. The model stops with one failure, `SearchUnassigned`.
- BezierFit.Column: reads a missing coordinate as 0, where `array_column` would skip the row. Every state of the integrator has six components, so this case does not arise in `calc`.
- The symmetry laws of the distances take equal-length points. The PHP loops run over the first point only, so they are not symmetric otherwise.
