/**
  Model of package `body`: a single point mass on the plane, over exact reals.

  The source stores every quantity as a 64-bit float; here they are `real`, so the
  algebraic identities of the physics (equal and opposite forces, exact sums)
  hold exactly. The drawable image and the colour are left out: the physics never
  reads them.
*/
module Bodies {

  /** A point, or a 2-D vector, in world coordinates. */
  datatype Point = Point(x: real, y: real)

  const Zero := Point(0.0, 0.0)

  function Add(p: Point, q: Point): Point
  {
    Point(p.x + q.x, p.y + q.y)
  }

  function Sub(p: Point, q: Point): Point
  {
    Point(p.x - q.x, p.y - q.y)
  }

  function Neg(p: Point): Point
  {
    Point(-p.x, -p.y)
  }

  function Abs(v: real): real
  {
    if v < 0.0 then -v else v
  }

  /**
    A body of mass. (x, y) is the top-left corner of its sprite; the physics
    uses the center, offset by the radius on both axes.
  */
  datatype Body = Body(x: real, y: real, r: real, m: real, vx: real, vy: real, fx: real, fy: real)
  {
    function Position(): Point { Point(x, y) }
    function Velocity(): Point { Point(vx, vy) }
    function Force(): Point { Point(fx, fy) }
  }

  /** `a` and `b` agree on everything except the force accumulator. */
  predicate OnlyForceDiffers(a: Body, b: Body)
  {
    a.x == b.x && a.y == b.y && a.r == b.r && a.m == b.m && a.vx == b.vx && a.vy == b.vy
  }

  const GravityConst: real := 1.0

  /** The numeric part of the constructor: the force is Go's zero value. */
  function NewBody(x: real, y: real, r: real, m: real, vx: real, vy: real): (b: Body)
    ensures b.Position() == Point(x, y) && b.Velocity() == Point(vx, vy)
    ensures b.r == r && b.m == m
    ensures b.Force() == Zero
  {
    Body(x, y, r, m, vx, vy, 0.0, 0.0)
  }

  /** The point the physics works with. */
  function Center(b: Body): (c: Point)
    ensures Sub(c, b.Position()) == Point(b.r, b.r)
  {
    Point(b.x + b.r, b.y + b.r)
  }

  /** The difference from `a` to `b` on each axis, as a non-negative magnitude. */
  function PointDistanceXY(a: Point, b: Point): (d: Point)
    ensures d.x >= 0.0 && d.y >= 0.0
    ensures d.x == 0.0 <==> a.x == b.x
    ensures d.y == 0.0 <==> a.y == b.y
  {
    var xDiff :=
      if a.x < b.x then b.x - a.x
      else if a.x > b.x then a.x - b.x
      else 0.0;
    var yDiff :=
      if a.y < b.y then b.y - a.y
      else if a.y > b.y then a.y - b.y
      else 0.0;
    Point(xDiff, yDiff)
  }

  /**
    The square of `PointDistance`. `PointDistance` takes the square root of this
    value and `ApplyGravity` squares it again, so over the reals the force law
    only ever sees this quantity.
  */
  function PointDistanceSq(a: Point, b: Point): (d2: real)
    ensures d2 >= 0.0
  {
    var d := PointDistanceXY(a, b);
    d.x * d.x + d.y * d.y
  }

  /** The signed vector from `a` to `b`. */
  function GetAtoBDiff(a: Point, b: Point): (d: Point)
    ensures Add(a, d) == b
  {
    Point(b.x - a.x, b.y - a.y)
  }

  /**
    The force `ApplyGravity` adds to `a` (and subtracts from `b`), given by the
    force law on the two centers and masses. Undefined when the centers
    coincide: there the source divides the mass product by zero and multiplies
    the resulting infinity by a zero difference, which gives NaN.
  */
  function GravityForce(a: Body, b: Body): (f: Point)
    requires Center(a) != Center(b)
    ensures f.x * GetAtoBDiff(Center(a), Center(b)).y == f.y * GetAtoBDiff(Center(a), Center(b)).x
    ensures f.x * GetAtoBDiff(Center(a), Center(b)).x + f.y * GetAtoBDiff(Center(a), Center(b)).y
         == GravityConst * (a.m * b.m)
  {
    Gravity(Center(a), a.m, Center(b), b.m)
  }

  /**
    The force law on centers and masses alone. The result points along the
    difference from `ca` to `cb` (it is parallel to it, and its dot product with
    it is G * mA * mB, so it points toward `cb` whenever the mass product is
    positive). The difference is never normalised, so the magnitude is
    G * mA * mB / r rather than an inverse square (`GravityMagnitude`).
  */
  function Gravity(ca: Point, ma: real, cb: Point, mb: real): (F: Point)
    requires ca != cb
    ensures F.x * GetAtoBDiff(ca, cb).y == F.y * GetAtoBDiff(ca, cb).x
    ensures F.x * GetAtoBDiff(ca, cb).x + F.y * GetAtoBDiff(ca, cb).y == GravityConst * (ma * mb)
  {
    PointDistanceSqPositive(ca, cb);
    PointDistanceSqOfDiff(ca, cb);
    var rv := GetAtoBDiff(ca, cb);
    var d2 := PointDistanceSq(ca, cb);
    var f := GravityConst * ((ma * mb) / d2);
    QuotientTimesDivisor(GravityConst, ma * mb, d2, f);
    ScaledDiff(rv.x, rv.y, d2, f, GravityConst * (ma * mb));
    Point(rv.x * f, rv.y * f)
  }

  /**
    The magnitude of the force law: |F|^2 * r^2 == (G * mA * mB)^2, so |F| is
    G * mA * mB / r and not an inverse square.
  */
  lemma GravityMagnitude(ca: Point, ma: real, cb: Point, mb: real)
    requires ca != cb
    ensures var F := Gravity(ca, ma, cb, mb);
      (F.x * F.x + F.y * F.y) * PointDistanceSq(ca, cb)
        == (GravityConst * (ma * mb)) * (GravityConst * (ma * mb))
  {
    PointDistanceSqPositive(ca, cb);
    PointDistanceSqOfDiff(ca, cb);
    var rv := GetAtoBDiff(ca, cb);
    var d2 := PointDistanceSq(ca, cb);
    var f := GravityConst * ((ma * mb) / d2);
    QuotientTimesDivisor(GravityConst, ma * mb, d2, f);
    ScaledDiff(rv.x, rv.y, d2, f, GravityConst * (ma * mb));
    GravityScaled(ca, ma, cb, mb, d2, f);
  }

  /** Applies the mutual gravity of `a` and `b` to both; returns the new (a, b). */
  function ApplyGravity(a: Body, b: Body): (res: (Body, Body))
    requires Center(a) != Center(b)
    ensures res.0.Force() == Add(a.Force(), GravityForce(a, b))
    ensures res.1.Force() == Sub(b.Force(), GravityForce(a, b))
    ensures Add(res.0.Force(), res.1.Force()) == Add(a.Force(), b.Force())
    ensures OnlyForceDiffers(res.0, a) && OnlyForceDiffers(res.1, b)
  {
    var fv := GravityForce(a, b);
    (a.(fx := a.fx + fv.x, fy := a.fy + fv.y),
     b.(fx := b.fx + -fv.x, fy := b.fy + -fv.y))
  }

  /** Sets the force accumulator to zero, as the step loop does for every body. */
  function ZeroForce(b: Body): (z: Body)
    ensures z.Force() == Zero
    ensures OnlyForceDiffers(z, b)
  {
    b.(fx := 0.0, fy := 0.0)
  }

  /** Semi-implicit Euler: the force changes the velocity, the new velocity moves the body. */
  function Update(b: Body): (u: Body)
    ensures u.Velocity() == Add(b.Velocity(), b.Force())
    ensures u.Position() == Add(b.Position(), u.Velocity())
    ensures u.r == b.r && u.m == b.m && u.Force() == b.Force()
  {
    var vx := b.vx + b.fx;
    var vy := b.vy + b.fy;
    b.(vx := vx, vy := vy, x := b.x + vx, y := b.y + vy)
  }

  // ---------------------------------------------------------------------------
  // Properties
  // ---------------------------------------------------------------------------

  /** The squared distance vanishes exactly when the two points coincide. */
  lemma PointDistanceSqPositive(a: Point, b: Point)
    ensures a != b ==> PointDistanceSq(a, b) > 0.0
    ensures a == b ==> PointDistanceSq(a, b) == 0.0
  {
    var d := PointDistanceXY(a, b);
    SumOfProductsSign(PointDistanceSq(a, b), d.x, d.x, d.y, d.y);
  }

  /** The per-axis distance is the magnitude of the signed difference. */
  lemma PointDistanceXYIsAbsDiff(a: Point, b: Point)
    ensures PointDistanceXY(a, b) == Point(Abs(GetAtoBDiff(a, b).x), Abs(GetAtoBDiff(a, b).y))
  {
  }

  lemma PointDistanceXYSymmetric(a: Point, b: Point)
    ensures PointDistanceXY(a, b) == PointDistanceXY(b, a)
  {
  }

  /** The squared distance is the squared length of the signed difference. */
  lemma PointDistanceSqOfDiff(a: Point, b: Point)
    ensures PointDistanceSq(a, b) == GetAtoBDiff(a, b).x * GetAtoBDiff(a, b).x
                                   + GetAtoBDiff(a, b).y * GetAtoBDiff(a, b).y
  {
    var d := PointDistanceXY(a, b);
    var g := GetAtoBDiff(a, b);
    if g.x < 0.0 {
      ProductOfNegations(d.x * d.x, g.x, g.x);
    }
    if g.y < 0.0 {
      ProductOfNegations(d.y * d.y, g.y, g.y);
    }
  }

  lemma GetAtoBDiffAntisymmetric(a: Point, b: Point)
    ensures GetAtoBDiff(b, a) == Neg(GetAtoBDiff(a, b))
  {
  }

  /** Newton's third law at the level of one pair: swapping the bodies negates the force. */
  lemma GravityForceAntisymmetric(a: Body, b: Body)
    requires Center(a) != Center(b)
    ensures GravityForce(b, a) == Neg(GravityForce(a, b))
  {
    PointDistanceXYSymmetric(Center(a), Center(b));
    assert PointDistanceSq(Center(a), Center(b)) == PointDistanceSq(Center(b), Center(a));
    assert a.m * b.m == b.m * a.m;
    PointDistanceSqPositive(Center(a), Center(b));
    var f := GravityConst * ((a.m * b.m) / PointDistanceSq(Center(a), Center(b)));
    var rv := GetAtoBDiff(Center(a), Center(b));
    GetAtoBDiffAntisymmetric(Center(a), Center(b));
    assert (-rv.x) * f == -(rv.x * f);
    assert (-rv.y) * f == -(rv.y * f);
  }

  /**
    Gravity attracts: with positive masses, the force added to `a` has, on each
    axis, the sign of the difference from `a`'s center to `b`'s.
  */
  lemma GravityForceAttracts(a: Body, b: Body)
    requires Center(a) != Center(b)
    requires a.m > 0.0 && b.m > 0.0
    ensures GravityForce(a, b).x > 0.0 <==> Center(b).x > Center(a).x
    ensures GravityForce(a, b).x < 0.0 <==> Center(b).x < Center(a).x
    ensures GravityForce(a, b).y > 0.0 <==> Center(b).y > Center(a).y
    ensures GravityForce(a, b).y < 0.0 <==> Center(b).y < Center(a).y
  {
    PointDistanceSqPositive(Center(a), Center(b));
    var d2 := PointDistanceSq(Center(a), Center(b));
    assert a.m * b.m > 0.0;
    var f := GravityConst * ((a.m * b.m) / d2);
    assert f > 0.0;
    var rv := GetAtoBDiff(Center(a), Center(b));
    GravityScaled(Center(a), a.m, Center(b), b.m, d2, f);
    SignOfProduct(rv.x, f);
    SignOfProduct(rv.y, f);
  }

  // Arithmetic helpers. They are stated over distinct variables and instantiated
  // with equal arguments where a square is meant.

  lemma SumOfProductsSign(s: real, u1: real, v1: real, u2: real, v2: real)
    requires s == u1 * v1 + u2 * v2
    requires u1 >= 0.0 && v1 >= 0.0 && u2 >= 0.0 && v2 >= 0.0
    ensures s >= 0.0
    ensures u1 > 0.0 && v1 > 0.0 ==> s > 0.0
    ensures u2 > 0.0 && v2 > 0.0 ==> s > 0.0
  {
  }

  lemma ProductOfNegations(p: real, u: real, v: real)
    requires p == (-u) * (-v)
    ensures p == u * v
  {
  }

  lemma SignOfProduct(v: real, f: real)
    requires f > 0.0
    ensures v * f > 0.0 <==> v > 0.0
    ensures v * f < 0.0 <==> v < 0.0
  {
    if v > 0.0 {
      assert v * f > 0.0;
    } else if v < 0.0 {
      assert (-v) * f > 0.0;
    }
  }

  lemma QuotientTimesDivisor(g: real, m: real, d: real, f: real)
    requires d != 0.0 && f == g * (m / d)
    ensures f * d == g * m
  {
    assert (m / d) * d == m;
  }

  /**
    A vector (dx * f, dy * f) along (dx, dy), where f * (dx^2 + dy^2) == k: it
    is parallel to (dx, dy), its dot product with (dx, dy) is k, and its squared
    length times dx^2 + dy^2 is k^2.
  */
  lemma ScaledDiff(dx: real, dy: real, s: real, f: real, k: real)
    requires s == dx * dx + dy * dy && f * s == k
    ensures (dx * f) * dy == (dy * f) * dx
    ensures (dx * f) * dx + (dy * f) * dy == k
    ensures ((dx * f) * (dx * f) + (dy * f) * (dy * f)) * s == k * k
  {
    assert (dx * f) * dx + (dy * f) * dy == f * s;
    assert (dx * f) * (dx * f) + (dy * f) * (dy * f) == f * (f * s);
    assert (f * (f * s)) * s == (f * s) * (f * s);
  }

  /**
    A vector parallel to (dx, dy) whose dot product with it is k is
    (dx, dy) scaled by k / (dx^2 + dy^2): the two conditions determine it.
  */
  lemma ParallelWithDot(dx: real, dy: real, s: real, u: real, v: real, k: real)
    requires s == dx * dx + dy * dy && s != 0.0
    requires u * dy == v * dx && u * dx + v * dy == k
    ensures u == dx * (k / s) && v == dy * (k / s)
  {
    assert u * s == dx * k by {
      assert u * s == u * (dx * dx) + u * (dy * dy);
      assert u * (dy * dy) == (v * dx) * dy;
      assert dx * k == dx * (u * dx) + dx * (v * dy);
    }
    assert v * s == dy * k by {
      assert v * s == v * (dx * dx) + v * (dy * dy);
      assert v * (dx * dx) == (u * dy) * dx;
      assert dy * k == dy * (u * dx) + dy * (v * dy);
    }
  }

  /** The force depends only on the centers and the masses, never on the accumulators. */
  lemma GravityForceIgnoresForce(a: Body, b: Body, a': Body, b': Body)
    requires Center(a) != Center(b)
    requires OnlyForceDiffers(a, a') && OnlyForceDiffers(b, b')
    ensures Center(a') != Center(b')
    ensures GravityForce(a', b') == GravityForce(a, b)
  {
    assert Center(a') == Center(a) && Center(b') == Center(b);
  }

  /** Resetting the force twice is the same as resetting it once. */
  lemma ZeroForceIdempotent(b: Body)
    ensures ZeroForce(ZeroForce(b)) == ZeroForce(b)
  {
  }

  /**
    Under semi-implicit Euler the force of a step already moves the body in that
    step: the displacement is the old velocity plus the force, and the center
    moves by the new velocity.
  */
  lemma UpdateDisplacement(b: Body)
    ensures Sub(Update(b).Position(), b.Position()) == Add(b.Velocity(), b.Force())
    ensures Center(Update(b)) == Add(Center(b), Update(b).Velocity())
  {
  }

  /**
    Example: centers (0, 0) and (3, 4), unit masses, distance 5,
    force magnitude 1/25; `a` is pulled by (0.12, 0.16) and `b` by the opposite.
  */
  lemma ApplyGravityExample()
    ensures var a := NewBody(-5.0, -5.0, 5.0, 1.0, 0.0, 0.0);
            var b := NewBody(-2.0, -1.0, 5.0, 1.0, 0.0, 0.0);
            Center(a) == Point(0.0, 0.0) && Center(b) == Point(3.0, 4.0) &&
            ApplyGravity(a, b).0.Force() == Point(0.12, 0.16) &&
            ApplyGravity(a, b).1.Force() == Point(-0.12, -0.16)
  {
    ApplyGravityOf345(NewBody(-5.0, -5.0, 5.0, 1.0, 0.0, 0.0), NewBody(-2.0, -1.0, 5.0, 1.0, 0.0, 0.0));
  }

  /** `ApplyGravity` on two unit masses at rest-force whose centers form a 3-4-5 triangle. */
  lemma ApplyGravityOf345(a: Body, b: Body)
    requires Center(a) == Point(0.0, 0.0) && Center(b) == Point(3.0, 4.0) && a.m == 1.0 && b.m == a.m
    requires a.Force() == Zero && b.Force() == Zero
    ensures ApplyGravity(a, b).0.Force() == Point(0.12, 0.16)
    ensures ApplyGravity(a, b).1.Force() == Point(-0.12, -0.16)
  {
    GravityForceOf345(a, b);
  }

  /** The force between two such bodies, with the bodies as variables. */
  lemma GravityForceOf345(a: Body, b: Body)
    requires Center(a) == Point(0.0, 0.0) && Center(b) == Point(3.0, 4.0) && a.m == 1.0 && b.m == a.m
    ensures GravityForce(a, b) == Point(0.12, 0.16)
  {
    GravityOf345(Center(a), Center(b), a.m);
  }

  /** A 3-4-5 triangle with unit masses: the force is (3, 4) scaled by 1/25. */
  lemma UnitGravityExample()
    ensures Gravity(Point(0.0, 0.0), 1.0, Point(3.0, 4.0), 1.0) == Point(0.12, 0.16)
  {
    GravityOf345(Point(0.0, 0.0), Point(3.0, 4.0), 1.0);
  }

  /** The 3-4-5 computation over variables, so that `Gravity` is not unfolded on literals. */
  lemma GravityOf345(ca: Point, cb: Point, m: real)
    requires ca == Point(0.0, 0.0) && cb == Point(3.0, 4.0) && m == 1.0
    ensures Gravity(ca, m, cb, m) == Point(0.12, 0.16)
  {
    assert PointDistanceXY(ca, cb) == Point(3.0, 4.0);
    assert PointDistanceSq(ca, cb) == 25.0;
    GravityScaled(ca, m, cb, m, 25.0, 0.04);
  }

  /** `Gravity` is the difference vector scaled by `f`, once the distance term is known. */
  lemma GravityScaled(ca: Point, ma: real, cb: Point, mb: real, d2: real, f: real)
    requires ca != cb
    requires d2 == PointDistanceSq(ca, cb) && d2 != 0.0
    requires f == GravityConst * ((ma * mb) / d2)
    ensures Gravity(ca, ma, cb, mb) == Point((cb.x - ca.x) * f, (cb.y - ca.y) * f)
  {
  }

  /**
    The force law is the only vector with the properties `Gravity` promises:
    parallel to the difference of the centers with dot product G * mA * mB.
  */
  lemma GravityCharacterized(ca: Point, ma: real, cb: Point, mb: real, F: Point)
    requires ca != cb
    requires F.x * GetAtoBDiff(ca, cb).y == F.y * GetAtoBDiff(ca, cb).x
    requires F.x * GetAtoBDiff(ca, cb).x + F.y * GetAtoBDiff(ca, cb).y == GravityConst * (ma * mb)
    ensures F == Gravity(ca, ma, cb, mb)
  {
    var d := GetAtoBDiff(ca, cb);
    var k := GravityConst * (ma * mb);
    var s := d.x * d.x + d.y * d.y;
    PointDistanceSqPositive(ca, cb);
    PointDistanceSqOfDiff(ca, cb);
    ParallelWithDot(d.x, d.y, s, F.x, F.y, k);
    var f := GravityConst * ((ma * mb) / s);
    assert k / s == f;
    GravityScaled(ca, ma, cb, mb, s, f);
  }

  /** With positive masses the force has a positive component along the difference of the centers. */
  lemma GravityPointsToward(ca: Point, ma: real, cb: Point, mb: real)
    requires ca != cb && ma > 0.0 && mb > 0.0
    ensures var F, d := Gravity(ca, ma, cb, mb), GetAtoBDiff(ca, cb);
      F.x * d.x + F.y * d.y > 0.0
  {
    assert ma * mb > 0.0;
  }
}
