/**
 The neighbourhood search (NeighborhoodSearch\AbstractNeighborhood and its von Neumann
 subclass): a greedy descent on the lattice of points reachable from the centre of a
 rectangle by whole steps of (xStep, yStep), moving each round to the best neighbour
 that strictly improves the objective, and stopping when no neighbour does or when the
 walk has left the rectangle.
 */
module NeighborhoodSearch {
  import opened Wrappers
  import opened RealMath

  /** One entry of `$dirs`: a move of dx x-steps and dy y-steps. */
  datatype Dir = Dir(dx: int, dy: int)

  datatype Point = Point(x: real, y: real)

  /** The search parameters kept by the constructor. */
  datatype Neighborhood = Neighborhood(xMin: real, yMin: real, xMax: real, yMax: real,
                                       dirs: seq<Dir>, xStep: real, yStep: real)

  /** The step size both constructors use when none is given. */
  const DefaultStep: real := 0.01

  /** The result of `approx`: a point, or the case where the first round improves nothing. */
  datatype Outcome = Found(p: Point) | Unassigned

  /** The unit moves along one axis, in the order of VonNeumannNeighborhood::__construct. */
  function VonNeumannDirs(): (r: seq<Dir>)
    ensures |r| == 4
    ensures forall d: Dir :: d in r <==> IntAbs(d.dx) + IntAbs(d.dy) == 1
  {
    var r := [Dir(-1, 0), Dir(0, -1), Dir(0, 1), Dir(1, 0)];
    assert forall d: Dir :: IntAbs(d.dx) + IntAbs(d.dy) == 1 ==> d in r by {
      forall d: Dir | IntAbs(d.dx) + IntAbs(d.dy) == 1
        ensures d in r
      {
        if d.dx == 0 {
          assert d == Dir(0, -1) || d == Dir(0, 1);
        } else {
          assert d == Dir(-1, 0) || d == Dir(1, 0);
        }
      }
    }
    r
  }

  function IntAbs(n: int): nat {
    if n < 0 then -n else n
  }

  /** VonNeumannNeighborhood::__construct. */
  function VonNeumann(xMin: real, yMin: real, xMax: real, yMax: real,
                      xStep: real := DefaultStep, yStep: real := DefaultStep): (r: Neighborhood)
    ensures r.xMin == xMin && r.yMin == yMin && r.xMax == xMax && r.yMax == yMax
    ensures r.xStep == xStep && r.yStep == yStep
    ensures |r.dirs| == 4
    ensures forall d: Dir :: d in r.dirs <==> IntAbs(d.dx) + IntAbs(d.dy) == 1
  {
    Neighborhood(xMin, yMin, xMax, yMax, VonNeumannDirs(), xStep, yStep)
  }

  /** The von Neumann moves come in opposite pairs and none is the null move. */
  lemma VonNeumannSymmetric(nb: Neighborhood)
    requires nb.dirs == VonNeumannDirs()
    ensures forall d :: d in nb.dirs ==> Dir(-d.dx, -d.dy) in nb.dirs && d != Dir(0, 0)
  {
  }

  /** The loop condition of `approx`. */
  predicate InRect(nb: Neighborhood, p: Point) {
    nb.xMin <= p.x <= nb.xMax && nb.yMin <= p.y <= nb.yMax
  }

  function Centre(nb: Neighborhood): Point {
    Point((nb.xMin + nb.xMax) / 2.0, (nb.yMin + nb.yMax) / 2.0)
  }

  /** The point one move d away from p. */
  function Move(nb: Neighborhood, p: Point, d: Dir): Point {
    Point(p.x + (d.dx as real) * nb.xStep, p.y + (d.dy as real) * nb.yStep)
  }

  /** The point from which the move d leads to p. */
  function Back(nb: Neighborhood, p: Point, d: Dir): Point {
    Point(p.x - (d.dx as real) * nb.xStep, p.y - (d.dy as real) * nb.yStep)
  }

  /** The point i x-steps and j y-steps from the centre. */
  function Lattice(nb: Neighborhood, i: int, j: int): Point {
    Point(Centre(nb).x + (i as real) * nb.xStep, Centre(nb).y + (j as real) * nb.yStep)
  }

  /** The state of one foreach round: the least value so far and where it was met. */
  datatype Round = Round(min: real, best: Option<Point>)

  /**
   The foreach over the directions around p: a neighbour replaces the current best only
   when its value is strictly below the least value so far.
   */
  function Scan(nb: Neighborhood, obj: Point -> real, p: Point, dirs: seq<Dir>, min: real, best: Option<Point>): (r: Round)
    ensures r.min <= min
    ensures forall k :: 0 <= k < |dirs| ==> obj(Move(nb, p, dirs[k])) >= r.min
    ensures r.min == min ==> r.best == best
    decreases |dirs|
  {
    if dirs == [] then Round(min, best)
    else
      var q := Move(nb, p, dirs[0]);
      assert forall k :: 1 <= k < |dirs| ==> dirs[k] == dirs[1..][k - 1];
      if obj(q) < min then Scan(nb, obj, p, dirs[1..], obj(q), Some(q))
      else Scan(nb, obj, p, dirs[1..], min, best)
  }

  /**
   A round that lowers the minimum ends at the first direction, in the order given, whose
   value is the round's least value.
   */
  lemma {:induction false} ScanFirstLeast(nb: Neighborhood, obj: Point -> real, p: Point, dirs: seq<Dir>, min: real, best: Option<Point>)
    ensures var r := Scan(nb, obj, p, dirs, min, best);
      r.min < min ==>
        exists k :: 0 <= k < |dirs| && r.best == Some(Move(nb, p, dirs[k])) && obj(Move(nb, p, dirs[k])) == r.min
          && forall k' :: 0 <= k' < k ==> obj(Move(nb, p, dirs[k'])) > r.min
    decreases |dirs|
  {
    if dirs != [] {
      var r := Scan(nb, obj, p, dirs, min, best);
      var q := Move(nb, p, dirs[0]);
      var min', best' := if obj(q) < min then obj(q) else min, if obj(q) < min then Some(q) else best;
      assert r == Scan(nb, obj, p, dirs[1..], min', best');
      ScanFirstLeast(nb, obj, p, dirs[1..], min', best');
      if r.min < min {
        if r.min == min' {
          assert r.best == Some(Move(nb, p, dirs[0]));
        } else {
          var k :| 0 <= k < |dirs[1..]| && r.best == Some(Move(nb, p, dirs[1..][k]))
            && obj(Move(nb, p, dirs[1..][k])) == r.min
            && forall k' :: 0 <= k' < k ==> obj(Move(nb, p, dirs[1..][k'])) > r.min;
          assert dirs[1..][k] == dirs[k + 1];
          forall k' | 0 <= k' < k + 1
            ensures obj(Move(nb, p, dirs[k'])) > r.min
          {
            if k' > 0 {
              assert dirs[k'] == dirs[1..][k' - 1];
            }
          }
        }
      }
    }
  }

  /**
   The round's outcome is the first direction, in the order given, that reaches the least
   value among all directions, provided that value is below the incoming minimum.
   */
  lemma ScanPicksFirstLeast(nb: Neighborhood, obj: Point -> real, p: Point, dirs: seq<Dir>, min: real, best: Option<Point>, k: nat)
    requires k < |dirs| && obj(Move(nb, p, dirs[k])) < min
    requires forall k' :: 0 <= k' < |dirs| ==> obj(Move(nb, p, dirs[k'])) >= obj(Move(nb, p, dirs[k]))
    requires forall k' :: 0 <= k' < k ==> obj(Move(nb, p, dirs[k'])) > obj(Move(nb, p, dirs[k]))
    ensures Scan(nb, obj, p, dirs, min, best) == Round(obj(Move(nb, p, dirs[k])), Some(Move(nb, p, dirs[k])))
  {
    var r := Scan(nb, obj, p, dirs, min, best);
    ScanFirstLeast(nb, obj, p, dirs, min, best);
    var v := obj(Move(nb, p, dirs[k]));
    assert r.min == v;
    var k2 :| 0 <= k2 < |dirs| && r.best == Some(Move(nb, p, dirs[k2])) && obj(Move(nb, p, dirs[k2])) == r.min
        && forall k' :: 0 <= k' < k2 ==> obj(Move(nb, p, dirs[k'])) > r.min;
    if k2 != k {
      assert false;
    }
  }

  /** When no direction is below the incoming minimum, the round changes nothing. */
  lemma ScanNoImprovement(nb: Neighborhood, obj: Point -> real, p: Point, dirs: seq<Dir>, min: real, best: Option<Point>)
    requires forall k :: 0 <= k < |dirs| ==> obj(Move(nb, p, dirs[k])) >= min
    ensures Scan(nb, obj, p, dirs, min, best) == Round(min, best)
  {
    var r := Scan(nb, obj, p, dirs, min, best);
    ScanFirstLeast(nb, obj, p, dirs, min, best);
    if r.min < min {
      assert false;
    }
  }

  /** A move from a lattice point lands on the lattice point offset by the move. */
  lemma MoveLattice(nb: Neighborhood, i: int, j: int, d: Dir)
    ensures Move(nb, Lattice(nb, i, j), d) == Lattice(nb, i + d.dx, j + d.dy)
  {
    Distribute(i, d.dx, nb.xStep);
    Distribute(j, d.dy, nb.yStep);
  }

  lemma Distribute(a: int, b: int, s: real)
    ensures ((a + b) as real) * s == (a as real) * s + (b as real) * s
  {
  }

  lemma BackMove(nb: Neighborhood, p: Point, d: Dir)
    ensures Back(nb, Move(nb, p, d), d) == p
  {
  }

  /** How many whole steps of size |s| fit in the half-width w. */
  function Reach(s: real, w: real): int {
    if s == 0.0 then 0 else (w / Abs(s)).Floor
  }

  lemma IntAbsTimes(i: int, s: real)
    ensures (IntAbs(i) as real) * Abs(s) == Abs((i as real) * s)
  {
    if i < 0 && s < 0.0 {
      assert (IntAbs(i) as real) * Abs(s) == (-(i as real)) * (-s);
    } else if i < 0 {
      assert (IntAbs(i) as real) * Abs(s) == (-(i as real)) * s;
      NonNegativeProduct(-(i as real), s);
    } else if s < 0.0 {
      NonNegativeProduct(i as real, -s);
      assert (i as real) * s == -((i as real) * (-s));
    } else {
      NonNegativeProduct(i as real, s);
    }
  }

  /** An offset of i steps of size s that stays within w of the centre is at most Reach(s, w). */
  lemma OffsetBound(i: int, s: real, w: real)
    requires s != 0.0 && Abs((i as real) * s) <= w
    ensures IntAbs(i) <= Reach(s, w)
  {
    var a := Abs(s);
    var q := w / a;
    assert q * a == w;
    var n := IntAbs(i) as real;
    IntAbsTimes(i, s);
    assert (n - q) * a == n * a - q * a;
    if n - q > 0.0 {
      PositiveProduct(n - q, a);
      assert false;
    }
  }

  /** The lattice points that can lie in the rectangle, as far as the step sizes allow. */
  ghost function Box(nb: Neighborhood): set<Point> {
    var ki := Reach(nb.xStep, (nb.xMax - nb.xMin) / 2.0);
    var kj := Reach(nb.yStep, (nb.yMax - nb.yMin) / 2.0);
    set i: int, j: int | -ki <= i <= ki && -kj <= j <= kj :: Lattice(nb, i, j)
  }

  /** The lattice points of the box strictly better than v: the search's variant. */
  ghost function Below(nb: Neighborhood, obj: Point -> real, v: real): set<Point> {
    set p | p in Box(nb) && obj(p) < v
  }

  lemma LatticeInBox(nb: Neighborhood, i: int, j: int)
    requires InRect(nb, Lattice(nb, i, j))
    ensures Lattice(nb, i, j) in Box(nb)
  {
    var ki := Reach(nb.xStep, (nb.xMax - nb.xMin) / 2.0);
    var kj := Reach(nb.yStep, (nb.yMax - nb.yMin) / 2.0);
    var i', j' := i, j;
    if nb.xStep == 0.0 {
      i' := 0;
    } else {
      OffsetBound(i, nb.xStep, (nb.xMax - nb.xMin) / 2.0);
    }
    if nb.yStep == 0.0 {
      j' := 0;
    } else {
      OffsetBound(j, nb.yStep, (nb.yMax - nb.yMin) / 2.0);
    }
    assert Lattice(nb, i, j) == Lattice(nb, i', j');
    InBox(nb, i', j');
  }

  lemma InBox(nb: Neighborhood, i: int, j: int)
    requires IntAbs(i) <= Reach(nb.xStep, (nb.xMax - nb.xMin) / 2.0)
    requires IntAbs(j) <= Reach(nb.yStep, (nb.yMax - nb.yMin) / 2.0)
    ensures Lattice(nb, i, j) in Box(nb)
  {
  }

  lemma {:induction false} SubsetSize<T>(a: set<T>, b: set<T>)
    requires a <= b
    ensures |a| <= |b|
  {
    if a != {} {
      var x :| x in a;
      SubsetSize(a - {x}, b - {x});
    }
  }

  /** Moving to a strictly better point never grows the set of better box points. */
  lemma BelowShrinks(nb: Neighborhood, obj: Point -> real, v: real, q: Point)
    requires obj(q) < v
    ensures |Below(nb, obj, obj(q))| <= |Below(nb, obj, v)|
    ensures q in Box(nb) ==> |Below(nb, obj, obj(q))| < |Below(nb, obj, v)|
  {
    var a, b := Below(nb, obj, obj(q)), Below(nb, obj, v);
    if q in Box(nb) {
      assert q in b && q !in a;
      SubsetSize(a, b - {q});
    } else {
      SubsetSize(a, b);
    }
  }

  /** The variant of `approx`: it drops on every move to a strictly better lattice point. */
  lemma VariantDrops(nb: Neighborhood, obj: Point -> real, v: real, i: int, j: int)
    requires obj(Lattice(nb, i, j)) < v
    ensures var q := Lattice(nb, i, j);
      |Below(nb, obj, obj(q))| + (if InRect(nb, q) then 1 else 0) < |Below(nb, obj, v)| + 1
  {
    var q := Lattice(nb, i, j);
    if InRect(nb, q) {
      LatticeInBox(nb, i, j);
    }
    BelowShrinks(nb, obj, v, q);
  }

  /**
   One move of the walk: from a lattice point p inside the rectangle, a round that does not
   end at p moves by one of the directions to a strictly better lattice point, and the
   variant of the loop decreases.
   */
  lemma Advance(nb: Neighborhood, obj: Point -> real, i: int, j: int, best: Option<Point>) returns (d: Dir)
    requires InRect(nb, Lattice(nb, i, j)) && (best.Some? ==> best.value == Lattice(nb, i, j))
    requires var r := Scan(nb, obj, Lattice(nb, i, j), nb.dirs, obj(Lattice(nb, i, j)), best);
      r.best.Some? && r.best.value != Lattice(nb, i, j)
    ensures var p := Lattice(nb, i, j);
      var r := Scan(nb, obj, p, nb.dirs, obj(p), best);
      d in nb.dirs && r.best.value == Move(nb, p, d) && r.best.value == Lattice(nb, i + d.dx, j + d.dy)
      && Back(nb, r.best.value, d) == p && r.min == obj(r.best.value) && r.min < obj(p)
      && |Below(nb, obj, r.min)| + (if InRect(nb, r.best.value) then 1 else 0) < |Below(nb, obj, obj(p))| + 1
  {
    var p := Lattice(nb, i, j);
    var r := Scan(nb, obj, p, nb.dirs, obj(p), best);
    ScanFirstLeast(nb, obj, p, nb.dirs, obj(p), best);
    assert r.min < obj(p);
    var k :| 0 <= k < |nb.dirs| && r.best == Some(Move(nb, p, nb.dirs[k])) && obj(Move(nb, p, nb.dirs[k])) == r.min;
    d := nb.dirs[k];
    MoveLattice(nb, i, j, d);
    BackMove(nb, p, d);
    VariantDrops(nb, obj, obj(p), i + d.dx, j + d.dy);
  }

  ghost predicate OnLattice(nb: Neighborhood, p: Point) {
    exists i, j :: p == Lattice(nb, i, j)
  }

  lemma CentreOnLattice(nb: Neighborhood)
    ensures OnLattice(nb, Centre(nb))
  {
    assert Centre(nb) == Lattice(nb, 0, 0);
  }

  /** No listed move from p lowers the objective. */
  ghost predicate NoDescent(nb: Neighborhood, obj: Point -> real, p: Point) {
    forall k :: 0 <= k < |nb.dirs| ==> obj(Move(nb, p, nb.dirs[k])) >= obj(p)
  }

  /**
   A round from a lattice point inside the rectangle that ends elsewhere ends one listed
   move away, on the lattice, strictly lower, with the loop's variant smaller.
   */
  lemma WalkStep(nb: Neighborhood, obj: Point -> real, p: Point, best: Option<Point>)
    requires OnLattice(nb, p) && InRect(nb, p) && (best.Some? ==> best.value == p)
    requires var r := Scan(nb, obj, p, nb.dirs, obj(p), best);
      r.best.Some? && r.best.value != p
    ensures var r := Scan(nb, obj, p, nb.dirs, obj(p), best);
      var q := r.best.value;
      && OnLattice(nb, q) && r.min == obj(q) && obj(q) < obj(p)
      && (exists d :: d in nb.dirs && q == Move(nb, p, d) && Back(nb, q, d) == p)
      && |Below(nb, obj, obj(q))| + (if InRect(nb, q) then 1 else 0) < |Below(nb, obj, obj(p))| + 1
  {
    var i, j :| p == Lattice(nb, i, j);
    var d := Advance(nb, obj, i, j, best);
  }

  /**
   The loop of `approx` as a function: from the current point p, with `best` as the last
   round left it, scan the directions; give up if nothing was ever accepted, stop if the
   round ends at p, and otherwise continue from the round's best point. The walk stops
   as soon as it stands outside the rectangle.
   */
  function Walk(nb: Neighborhood, obj: Point -> real, p: Point, best: Option<Point>): Outcome
    requires OnLattice(nb, p) && (best.Some? ==> best.value == p)
    decreases |Below(nb, obj, obj(p))| + (if InRect(nb, p) then 1 else 0)
  {
    if !InRect(nb, p) then Found(p)
    else
      var round := Scan(nb, obj, p, nb.dirs, obj(p), best);
      if round.best.None? then Unassigned
      else if round.best.value == p then Found(p)
      else
        WalkStep(nb, obj, p, best);
        Walk(nb, obj, round.best.value, round.best)
  }

  /**
   What a walk promises from a state the loop can reach: it gives up only in the first
   round, when p is the centre and no move lowers the objective; a point it returns is on
   the lattice, lower than the centre unless it is the centre, a local minimum when inside
   the rectangle, and one move from a point inside the rectangle when outside it.
   */
  lemma {:induction false} WalkFrom(nb: Neighborhood, obj: Point -> real, p: Point, best: Option<Point>)
    requires OnLattice(nb, p) && (best.Some? ==> best.value == p)
    requires best.None? ==> p == Centre(nb)
    requires best.Some? ==> obj(p) < obj(Centre(nb))
    requires p != Centre(nb) ==> exists d :: d in nb.dirs && InRect(nb, Back(nb, p, d))
    ensures var r := Walk(nb, obj, p, best);
      && (r == Unassigned <==> best.None? && InRect(nb, p) && NoDescent(nb, obj, p))
      && (r.Found? ==> OnLattice(nb, r.p))
      && (r.Found? && r.p != Centre(nb) ==> obj(r.p) < obj(Centre(nb)))
      && (r.Found? && InRect(nb, r.p) ==> NoDescent(nb, obj, r.p))
      && (r.Found? && !InRect(nb, r.p) && r.p != Centre(nb) ==> exists d :: d in nb.dirs && InRect(nb, Back(nb, r.p, d)))
    decreases |Below(nb, obj, obj(p))| + (if InRect(nb, p) then 1 else 0)
  {
    if InRect(nb, p) {
      var round := Scan(nb, obj, p, nb.dirs, obj(p), best);
      ScanFirstLeast(nb, obj, p, nb.dirs, obj(p), best);
      if best.None? && NoDescent(nb, obj, p) {
        ScanNoImprovement(nb, obj, p, nb.dirs, obj(p), best);
      }
      if round.best.Some? && round.best.value != p {
        var q := round.best.value;
        WalkStep(nb, obj, p, best);
        var d :| d in nb.dirs && q == Move(nb, p, d) && Back(nb, q, d) == p;
        assert InRect(nb, Back(nb, q, d));
        WalkFrom(nb, obj, q, round.best);
        assert !NoDescent(nb, obj, p) by {
          var k :| 0 <= k < |nb.dirs| && nb.dirs[k] == d;
        }
      }
    }
  }

  /**
   The functional specification of `approx`: the walk from the centre of the rectangle,
   with nothing accepted yet.
   */
  function Descent(nb: Neighborhood, obj: Point -> real): (r: Outcome)
    ensures r == Unassigned <==> InRect(nb, Centre(nb)) && NoDescent(nb, obj, Centre(nb))
    ensures !InRect(nb, Centre(nb)) ==> r == Found(Centre(nb))
    ensures r.Found? ==> exists i, j :: r.p == Lattice(nb, i, j)
    ensures r.Found? && r.p != Centre(nb) ==> obj(r.p) < obj(Centre(nb))
    ensures r.Found? && InRect(nb, r.p) ==> NoDescent(nb, obj, r.p)
    ensures r.Found? && !InRect(nb, r.p) && r.p != Centre(nb) ==>
      exists d :: d in nb.dirs && InRect(nb, Back(nb, r.p, d))
  {
    CentreOnLattice(nb);
    WalkFrom(nb, obj, Centre(nb), None);
    Walk(nb, obj, Centre(nb), None)
  }

  /**
   AbstractNeighborhood::approx. The walk starts at the centre of the rectangle and, while
   it is inside, scans the directions; it stops when the round's best is the current
   point, and otherwise moves there. `best` persists across rounds as in the source, so
   a first round that improves nothing leaves it unassigned. The loop computes exactly
   the walk `Descent`.
   */
  method Approx(nb: Neighborhood, obj: Point -> real) returns (r: Outcome)
    ensures r == Descent(nb, obj)
    ensures r == Unassigned <==> InRect(nb, Centre(nb)) && NoDescent(nb, obj, Centre(nb))
    ensures r.Found? ==> exists i, j :: r.p == Lattice(nb, i, j)
    ensures r.Found? && r.p != Centre(nb) ==> obj(r.p) < obj(Centre(nb))
    ensures r.Found? && InRect(nb, r.p) ==> NoDescent(nb, obj, r.p)
  {
    var x := (nb.xMin + nb.xMax) / 2.0;
    var y := (nb.yMin + nb.yMax) / 2.0;
    var min := obj(Point(x, y));
    var best: Option<Point> := None;
    ghost var i, j := 0, 0;
    assert Point(x, y) == Lattice(nb, 0, 0);
    while InRect(nb, Point(x, y))
      invariant Point(x, y) == Lattice(nb, i, j)
      invariant min == obj(Point(x, y))
      invariant best.Some? ==> best.value == Point(x, y)
      invariant Walk(nb, obj, Point(x, y), best) == Descent(nb, obj)
      decreases |Below(nb, obj, min)| + (if InRect(nb, Point(x, y)) then 1 else 0)
    {
      var p := Point(x, y);
      var round := Scan(nb, obj, p, nb.dirs, min, best);
      if round.best.None? {
        return Unassigned;
      }
      if round.best.value == p {
        return Found(p);
      }
      ghost var d := Advance(nb, obj, i, j, best);
      min, best := round.min, round.best;
      x, y := round.best.value.x, round.best.value.y;
      i, j := i + d.dx, j + d.dy;
    }
    return Found(Point(x, y));
  }
  /**
   Best improvement, not first improvement: on [-1, 1]² with steps of 0.5, from a centre of
   value 10 whose left neighbour has 5 and right neighbour 3, the first round passes the
   left neighbour and settles on the right one, where the search then stops.
   */
  lemma DescentExample()
    ensures var obj := (q: Point) =>
        if q == Point(0.0, 0.0) then 10.0
        else if q == Point(-0.5, 0.0) then 5.0
        else if q == Point(0.5, 0.0) then 3.0
        else 100.0;
      Descent(VonNeumann(-1.0, -1.0, 1.0, 1.0, 0.5, 0.5), obj) == Found(Point(0.5, 0.0))
  {
    var obj := (q: Point) =>
        if q == Point(0.0, 0.0) then 10.0
        else if q == Point(-0.5, 0.0) then 5.0
        else if q == Point(0.5, 0.0) then 3.0
        else 100.0;
    var nb := VonNeumann(-1.0, -1.0, 1.0, 1.0, 0.5, 0.5);
    var c, q := Point(0.0, 0.0), Point(0.5, 0.0);
    assert Centre(nb) == c;
    CentreOnLattice(nb);
    assert q == Lattice(nb, 1, 0);
    assert Scan(nb, obj, c, nb.dirs, obj(c), None) == Round(3.0, Some(q));
    assert Scan(nb, obj, q, nb.dirs, obj(q), Some(q)) == Round(3.0, Some(q));
    assert Walk(nb, obj, q, Some(q)) == Found(q);
  }
}
