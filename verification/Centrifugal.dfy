/** Centrifugal body loads: the acceleration of a point, its limit, and the
    check of eight corners that stands for the check of a whole solid. */
module Centrifugal {
  import opened Wrappers
  import opened FemModel
  import opened TetraGeometry
  import opened Composition

  const MAXIMUM_RPM := 60000.0
  const MAXIMUM_COORDINATE := 1000000.0
  const MAXIMUM_ACCELERATION := 1000000000.0

  datatype CentrifugalError = InputInvalid | AccelerationLimit

  /** `omegaSquared` is the square of `speedRpm * pi / 30`. */
  datatype Load = Load(speedRpm: real, omegaSquared: real, axisPoint: Vec3, axisDirection: Vec3)

  /** The length of the direction differs from one by at most 1e-10, in squared form. */
  predicate NearlyUnit(v: Vec3) {
    0.9999999999 * 0.9999999999 <= SquaredLength(v) <= 1.0000000001 * 1.0000000001
  }

  predicate IsCentrifugalLoad(load: Load) {
    && 0.0 < load.speedRpm <= MAXIMUM_RPM
    && Abs(load.axisPoint.x) <= MAXIMUM_COORDINATE
    && Abs(load.axisPoint.y) <= MAXIMUM_COORDINATE
    && Abs(load.axisPoint.z) <= MAXIMUM_COORDINATE
    && NearlyUnit(load.axisDirection)
  }

  function Axial(load: Load, point: Vec3): real {
    point.Minus(load.axisPoint).Dot(load.axisDirection)
  }

  /** The offset from the axis, scaled; the limit is not looked at. */
  function RawAcceleration(load: Load, point: Vec3): Vec3 {
    var delta, axial, n := point.Minus(load.axisPoint), Axial(load, point), load.axisDirection;
    Vec3(load.omegaSquared * (delta.x - axial * n.x),
         load.omegaSquared * (delta.y - axial * n.y),
         load.omegaSquared * (delta.z - axial * n.z))
  }

  predicate WithinLimit(a: Vec3) {
    SquaredLength(a) <= MAXIMUM_ACCELERATION * MAXIMUM_ACCELERATION
  }

  function CentrifugalAcceleration(load: Load, point: Vec3): Result<Vec3, CentrifugalError> {
    if !IsCentrifugalLoad(load) then Failure(InputInvalid)
    else
      var a := RawAcceleration(load, point);
      if !WithinLimit(a) then Failure(AccelerationLimit) else Success(a)
  }

  // ---------------------------------------------------------------- direction and invariance

  /** The vector `w (d - k n)`, coordinate by coordinate. */
  ghost predicate ScaledRest(a: Vec3, w: real, d: Vec3, k: real, n: Vec3) {
    a.x == w * (d.x - k * n.x) && a.y == w * (d.y - k * n.y) && a.z == w * (d.z - k * n.z)
  }

  lemma IsScaledRest(load: Load, point: Vec3, a: Vec3, d: Vec3, k: real)
    requires a == RawAcceleration(load, point) && d == point.Minus(load.axisPoint) && k == Axial(load, point)
    ensures ScaledRest(a, load.omegaSquared, d, k, load.axisDirection)
  {
  }

  /** The acceleration is orthogonal to the axis up to how far the direction is
      from being a unit vector. */
  lemma AxialPart(load: Load, point: Vec3)
    ensures RawAcceleration(load, point).Dot(load.axisDirection)
         == load.omegaSquared * (Axial(load, point) * (1.0 - SquaredLength(load.axisDirection)))
  {
    var a, n, d, k := RawAcceleration(load, point), load.axisDirection, point.Minus(load.axisPoint), Axial(load, point);
    IsScaledRest(load, point, a, d, k);
    AxialTerms(a, load.omegaSquared, k, d, n, SquaredLength(n));
  }

  lemma AxialTerm(a: real, w: real, d: real, k: real, n: real)
    requires a == w * (d - k * n)
    ensures a * n == w * (d * n) - (w * k) * (n * n)
  {
    assert a * n == w * ((d - k * n) * n);
    assert (d - k * n) * n == d * n - k * (n * n);
  }

  lemma SumOfTerms(w: real, k: real, a: real, b: real, c: real, x: real, y: real, z: real, length: real)
    requires a + b + c == k && x + y + z == length
    ensures (w * a - (w * k) * x) + (w * b - (w * k) * y) + (w * c - (w * k) * z) == w * (k * (1.0 - length))
  {
    assert w * a + w * b + w * c == w * k;
    assert (w * k) * x + (w * k) * y + (w * k) * z == (w * k) * length;
    assert w * (k * (1.0 - length)) == w * k - (w * k) * length;
  }

  lemma AxialTerms(a: Vec3, w: real, k: real, d: Vec3, n: Vec3, length: real)
    requires ScaledRest(a, w, d, k, n)
    requires k == d.x * n.x + d.y * n.y + d.z * n.z && length == n.x * n.x + n.y * n.y + n.z * n.z
    ensures a.x * n.x + a.y * n.y + a.z * n.z == w * (k * (1.0 - length))
  {
    AxialTerm(a.x, w, d.x, k, n.x);
    AxialTerm(a.y, w, d.y, k, n.y);
    AxialTerm(a.z, w, d.z, k, n.z);
    SumOfTerms(w, k, d.x * n.x, d.y * n.y, d.z * n.z, n.x * n.x, n.y * n.y, n.z * n.z, length);
  }

  lemma OrthogonalToUnitAxis(load: Load, point: Vec3)
    requires SquaredLength(load.axisDirection) == 1.0
    ensures RawAcceleration(load, point).Dot(load.axisDirection) == 0.0
  {
    AxialPart(load, point);
    NothingLeft(load.omegaSquared, Axial(load, point), SquaredLength(load.axisDirection));
  }

  lemma NothingLeft(w: real, k: real, length: real)
    requires length == 1.0
    ensures w * (k * (1.0 - length)) == 0.0
  {
  }

  /** Which way the axis points does not matter. */
  lemma ReversedAxis(load: Load, point: Vec3)
    ensures CentrifugalAcceleration(load.(axisDirection := Scaled(load.axisDirection, -1.0)), point)
         == CentrifugalAcceleration(load, point)
  {
    var n := load.axisDirection;
    var reversed := load.(axisDirection := Scaled(n, -1.0));
    ReversedTerms(load, reversed, point, Axial(load, point), Axial(reversed, point));
  }

  lemma ReversedTerms(load: Load, reversed: Load, point: Vec3, k: real, k': real)
    requires reversed == load.(axisDirection := Scaled(load.axisDirection, -1.0))
    requires k == Axial(load, point) && k' == Axial(reversed, point)
    ensures SquaredLength(reversed.axisDirection) == SquaredLength(load.axisDirection)
    ensures RawAcceleration(reversed, point) == RawAcceleration(load, point)
  {
  }

  /** Sliding the axis point along a unit axis does not change the acceleration. */
  lemma SlidAxis(load: Load, slid: Load, point: Vec3, s: real)
    requires SquaredLength(load.axisDirection) == 1.0
    requires slid == load.(axisPoint := load.axisPoint.Minus(Scaled(load.axisDirection, s)))
    ensures RawAcceleration(slid, point) == RawAcceleration(load, point)
  {
    var n, d, d' := load.axisDirection, point.Minus(load.axisPoint), point.Minus(slid.axisPoint);
    var a, b := RawAcceleration(load, point), RawAcceleration(slid, point);
    var k, k' := Axial(load, point), Axial(slid, point);
    SlidOffset(load, slid, point, s, d, d');
    SlidAxial(d, d', n, s);
    IsScaledRest(load, point, a, d, k);
    IsScaledRest(slid, point, b, d', k');
    SlidTerms(a, b, load.omegaSquared, k, k', d, d', n, s);
  }

  /** The offset `d'` is `d` moved by `s` along `n`. */
  ghost predicate Moved(d: Vec3, d': Vec3, n: Vec3, s: real) {
    d'.x == d.x + s * n.x && d'.y == d.y + s * n.y && d'.z == d.z + s * n.z
  }

  lemma SlidOffset(load: Load, slid: Load, point: Vec3, s: real, d: Vec3, d': Vec3)
    requires slid == load.(axisPoint := load.axisPoint.Minus(Scaled(load.axisDirection, s)))
    requires d == point.Minus(load.axisPoint) && d' == point.Minus(slid.axisPoint)
    ensures Moved(d, d', load.axisDirection, s)
  {
  }

  lemma SameRest(w: real, d: real, d': real, k: real, k': real, n: real, s: real)
    requires d' == d + s * n && k' == k + s
    ensures w * (d' - k' * n) == w * (d - k * n)
  {
    assert k' * n == k * n + s * n;
    assert d' - k' * n == d - k * n;
  }

  lemma SlidTerms(a: Vec3, b: Vec3, w: real, k: real, k': real, d: Vec3, d': Vec3, n: Vec3, s: real)
    requires ScaledRest(a, w, d, k, n) && ScaledRest(b, w, d', k', n)
    requires k' == k + s && Moved(d, d', n, s)
    ensures b == a
  {
    SameRest(w, d.x, d'.x, k, k', n.x, s);
    SameRest(w, d.y, d'.y, k, k', n.y, s);
    SameRest(w, d.z, d'.z, k, k', n.z, s);
  }

  lemma SlidAxial(d: Vec3, d': Vec3, n: Vec3, s: real)
    requires SquaredLength(n) == 1.0 && Moved(d, d', n, s)
    ensures d'.Dot(n) == d.Dot(n) + s
  {
    MovedTerm(d.x, d'.x, n.x, s);
    MovedTerm(d.y, d'.y, n.y, s);
    MovedTerm(d.z, d'.z, n.z, s);
    UnitShare(n.x * n.x, n.y * n.y, n.z * n.z, s);
  }

  lemma MovedTerm(d: real, d': real, n: real, s: real)
    requires d' == d + s * n
    ensures d' * n == d * n + s * (n * n)
  {
  }

  lemma UnitShare(x: real, y: real, z: real, s: real)
    requires x + y + z == 1.0
    ensures s * x + s * y + s * z == s
  {
    assert s * x + s * y + s * z == s * (x + y + z);
  }

  // ---------------------------------------------------------------- from corners to the whole box

  /** The point a fraction `t` of the way from `a` to `b`. */
  function Between(a: real, b: real, t: real): real {
    (1.0 - t) * a + t * b
  }

  function Mix(p: Vec3, q: Vec3, t: real): Vec3 {
    Vec3(Between(p.x, q.x, t), Between(p.y, q.y, t), Between(p.z, q.z, t))
  }

  lemma SquareBetween(a: real, b: real, t: real)
    ensures Square(Between(a, b, t)) == Between(Square(a), Square(b), t) - (t * (1.0 - t)) * Square(a - b)
  {
  }

  /** Between two points within the limit everything is within the limit. */
  lemma LimitIsConvex(u: Vec3, v: Vec3, t: real)
    requires 0.0 <= t <= 1.0 && WithinLimit(u) && WithinLimit(v)
    ensures WithinLimit(Mix(u, v, t))
  {
    var limit := MAXIMUM_ACCELERATION * MAXIMUM_ACCELERATION;
    LengthBetween(Mix(u, v, t), u, v, t);
    ShrunkBound(SquaredLength(u), SquaredLength(v), t, limit);
  }

  lemma LengthBetween(m: Vec3, u: Vec3, v: Vec3, t: real)
    requires m == Mix(u, v, t) && 0.0 <= t <= 1.0
    ensures SquaredLength(m) <= Between(SquaredLength(u), SquaredLength(v), t)
  {
    SquareShrinks(u.x, v.x, t);
    SquareShrinks(u.y, v.y, t);
    SquareShrinks(u.z, v.z, t);
    SumsBetween(Square(m.x), Square(m.y), Square(m.z), Square(u.x), Square(u.y), Square(u.z),
                Square(v.x), Square(v.y), Square(v.z), t);
  }

  lemma SumsBetween(x: real, y: real, z: real, a: real, b: real, c: real, d: real, e: real, f: real, t: real)
    requires x <= Between(a, d, t) && y <= Between(b, e, t) && z <= Between(c, f, t)
    ensures x + y + z <= Between(a + b + c, d + e + f, t)
  {
    BetweenSum(a, b, c, d, e, f, t);
  }

  lemma SquareShrinks(a: real, b: real, t: real)
    requires 0.0 <= t <= 1.0
    ensures Square(Between(a, b, t)) <= Between(Square(a), Square(b), t)
  {
    SquareBetween(a, b, t);
    ProductNonnegative(t, 1.0 - t);
    SquareNonnegative(a - b);
    ProductNonnegative(t * (1.0 - t), Square(a - b));
  }

  lemma BetweenSum(a: real, b: real, c: real, d: real, e: real, f: real, t: real)
    ensures Between(a, d, t) + Between(b, e, t) + Between(c, f, t) == Between(a + b + c, d + e + f, t)
  {
  }

  lemma ShrunkBound(a: real, b: real, t: real, limit: real)
    requires 0.0 <= t <= 1.0 && a <= limit && b <= limit
    ensures Between(a, b, t) <= limit
  {
    ProductNonnegative(1.0 - t, limit - a);
    ProductNonnegative(t, limit - b);
  }

  // ---------------------------------------------------------------- affine maps

  /** One coordinate of a transformed point. */
  function Row(m: seq<real>, o: nat, p: Vec3): real
    requires o + 3 < |m|
  {
    m[o] * p.x + m[o + 1] * p.y + m[o + 2] * p.z + m[o + 3]
  }

  lemma RowMix(m: seq<real>, o: nat, p: Vec3, q: Vec3, t: real)
    requires o + 3 < |m|
    ensures Row(m, o, Mix(p, q, t)) == Between(Row(m, o, p), Row(m, o, q), t)
  {
  }

  lemma RowsOf(m: seq<real>, p: Vec3)
    requires |m| == 16
    ensures TransformPoint(m, p) == Vec3(Row(m, 0, p), Row(m, 4, p), Row(m, 8, p))
  {
  }

  lemma TransformMix(m: seq<real>, p: Vec3, q: Vec3, t: real)
    requires |m| == 16
    ensures TransformPoint(m, Mix(p, q, t)) == Mix(TransformPoint(m, p), TransformPoint(m, q), t)
  {
    RowsOf(m, p);
    RowsOf(m, q);
    RowsOf(m, Mix(p, q, t));
    RowMix(m, 0, p, q, t);
    RowMix(m, 4, p, q, t);
    RowMix(m, 8, p, q, t);
  }

  lemma DifferenceBetween(a: real, b: real, c: real, t: real)
    ensures Between(a, b, t) - c == Between(a - c, b - c, t)
  {
  }

  lemma AxialMix(load: Load, p: Vec3, q: Vec3, t: real)
    ensures Axial(load, Mix(p, q, t)) == Between(Axial(load, p), Axial(load, q), t)
  {
  }

  lemma ComponentBetween(w: real, n: real, d: real, e: real, k: real, l: real, t: real)
    ensures w * (Between(d, e, t) - Between(k, l, t) * n) == Between(w * (d - k * n), w * (e - l * n), t)
  {
    assert Between(k, l, t) * n == Between(k * n, l * n, t);
    assert Between(d, e, t) - Between(k * n, l * n, t) == Between(d - k * n, e - l * n, t);
  }

  lemma RestsBetween(a: Vec3, b: Vec3, g: Vec3, w: real, n: Vec3, d: Vec3, e: Vec3, k: real, l: real, t: real)
    requires ScaledRest(a, w, d, k, n) && ScaledRest(b, w, e, l, n) &&
      ScaledRest(g, w, Mix(d, e, t), Between(k, l, t), n)
    ensures g == Mix(a, b, t)
  {
    ComponentBetween(w, n.x, d.x, e.x, k, l, t);
    ComponentBetween(w, n.y, d.y, e.y, k, l, t);
    ComponentBetween(w, n.z, d.z, e.z, k, l, t);
  }

  lemma OffsetBetween(p: Vec3, q: Vec3, c: Vec3, t: real)
    ensures Mix(p, q, t).Minus(c) == Mix(p.Minus(c), q.Minus(c), t)
  {
    DifferenceBetween(p.x, q.x, c.x, t);
    DifferenceBetween(p.y, q.y, c.y, t);
    DifferenceBetween(p.z, q.z, c.z, t);
  }

  /** The acceleration varies linearly along every segment. */
  lemma AccelerationMix(load: Load, p: Vec3, q: Vec3, t: real)
    ensures RawAcceleration(load, Mix(p, q, t)) == Mix(RawAcceleration(load, p), RawAcceleration(load, q), t)
  {
    var w, n, c, m := load.omegaSquared, load.axisDirection, load.axisPoint, Mix(p, q, t);
    var k, l, d, e := Axial(load, p), Axial(load, q), p.Minus(c), q.Minus(c);
    var a, b, g := RawAcceleration(load, p), RawAcceleration(load, q), RawAcceleration(load, m);
    AxialMix(load, p, q, t);
    OffsetBetween(p, q, c, t);
    IsScaledRest(load, p, a, d, k);
    IsScaledRest(load, q, b, e, l);
    IsScaledRest(load, m, g, Mix(d, e, t), Between(k, l, t));
    RestsBetween(a, b, g, w, n, d, e, k, l, t);
  }

  lemma AcceptedBetween(load: Load, m: seq<real>, p: Vec3, q: Vec3, t: real)
    requires |m| == 16 && 0.0 <= t <= 1.0
    requires Accepts(load, m, p) && Accepts(load, m, q)
    ensures Accepts(load, m, Mix(p, q, t))
  {
    TransformMix(m, p, q, t);
    AccelerationMix(load, TransformPoint(m, p), TransformPoint(m, q), t);
    LimitIsConvex(RawAcceleration(load, TransformPoint(m, p)), RawAcceleration(load, TransformPoint(m, q)), t);
  }

  // ---------------------------------------------------------------- the preflight

  datatype Bounds = Bounds(min: Vec3, max: Vec3)

  predicate Inside(b: Bounds, p: Vec3) {
    b.min.x <= p.x <= b.max.x && b.min.y <= p.y <= b.max.y && b.min.z <= p.z <= b.max.z
  }

  /** A point of the solid, moved into the analysis, is within the limit. */
  predicate Accepts(load: Load, m: seq<real>, p: Vec3)
    requires |m| == 16
  {
    CentrifugalAcceleration(load, TransformPoint(m, p)).Success?
  }

  /** The fraction at which `x` lies between the ends of an interval. */
  function Fraction(lo: real, hi: real, x: real): real {
    if lo == hi then 0.0 else (x - lo) / (hi - lo)
  }

  lemma FractionBetween(lo: real, hi: real, x: real)
    requires lo <= x <= hi
    ensures 0.0 <= Fraction(lo, hi, x) <= 1.0
    ensures Between(lo, hi, Fraction(lo, hi, x)) == x
  {
    if lo != hi {
      var t := Fraction(lo, hi, x);
      Quotient(x - lo, hi - lo);
      assert t * (hi - lo) == x - lo;
      BetweenByLength(lo, hi, t, hi - lo);
    }
  }

  lemma BetweenByLength(lo: real, hi: real, t: real, length: real)
    requires length == hi - lo
    ensures Between(lo, hi, t) == lo + t * length
  {
    assert t * length == t * hi - t * lo;
  }

  function Corner(b: Bounds, i: nat): Vec3
    requires i < 8
  {
    Vec3(if i / 4 == 0 then b.min.x else b.max.x,
         if i / 2 % 2 == 0 then b.min.y else b.max.y,
         if i % 2 == 0 then b.min.z else b.max.z)
  }

  ghost predicate CornersAccepted(load: Load, m: seq<real>, b: Bounds)
    requires |m| == 16
  {
    forall i :: 0 <= i < 8 ==> Accepts(load, m, Corner(b, i))
  }

  lemma SamePoint(x: real, y: real, z: real, x': real, t: real)
    ensures Mix(Vec3(x, y, z), Vec3(x', y, z), t) == Vec3(Between(x, x', t), y, z)
    ensures Mix(Vec3(y, x, z), Vec3(y, x', z), t) == Vec3(y, Between(x, x', t), z)
    ensures Mix(Vec3(y, z, x), Vec3(y, z, x'), t) == Vec3(y, z, Between(x, x', t))
  {
  }

  lemma AcceptedOnX(load: Load, m: seq<real>, b: Bounds, x: real, y: real, z: real)
    requires |m| == 16 && b.min.x <= x <= b.max.x
    requires Accepts(load, m, Vec3(b.min.x, y, z)) && Accepts(load, m, Vec3(b.max.x, y, z))
    ensures Accepts(load, m, Vec3(x, y, z))
  {
    var t := Fraction(b.min.x, b.max.x, x);
    FractionBetween(b.min.x, b.max.x, x);
    SamePoint(b.min.x, y, z, b.max.x, t);
    AcceptedBetween(load, m, Vec3(b.min.x, y, z), Vec3(b.max.x, y, z), t);
  }

  lemma AcceptedOnY(load: Load, m: seq<real>, b: Bounds, x: real, y: real, z: real)
    requires |m| == 16 && b.min.y <= y <= b.max.y
    requires Accepts(load, m, Vec3(x, b.min.y, z)) && Accepts(load, m, Vec3(x, b.max.y, z))
    ensures Accepts(load, m, Vec3(x, y, z))
  {
    var t := Fraction(b.min.y, b.max.y, y);
    FractionBetween(b.min.y, b.max.y, y);
    SamePoint(b.min.y, x, z, b.max.y, t);
    AcceptedBetween(load, m, Vec3(x, b.min.y, z), Vec3(x, b.max.y, z), t);
  }

  lemma AcceptedOnZ(load: Load, m: seq<real>, b: Bounds, x: real, y: real, z: real)
    requires |m| == 16 && b.min.z <= z <= b.max.z
    requires Accepts(load, m, Vec3(x, y, b.min.z)) && Accepts(load, m, Vec3(x, y, b.max.z))
    ensures Accepts(load, m, Vec3(x, y, z))
  {
    var t := Fraction(b.min.z, b.max.z, z);
    FractionBetween(b.min.z, b.max.z, z);
    SamePoint(b.min.z, x, y, b.max.z, t);
    AcceptedBetween(load, m, Vec3(x, y, b.min.z), Vec3(x, y, b.max.z), t);
  }

  /** Eight accepted corners: every point of the box is accepted. */
  lemma WholeBoxAccepted(load: Load, m: seq<real>, b: Bounds, p: Vec3)
    requires |m| == 16 && CornersAccepted(load, m, b) && Inside(b, p)
    ensures Accepts(load, m, p)
  {
    assert Accepts(load, m, Corner(b, 0)) && Accepts(load, m, Corner(b, 1));
    assert Accepts(load, m, Corner(b, 2)) && Accepts(load, m, Corner(b, 3));
    assert Accepts(load, m, Corner(b, 4)) && Accepts(load, m, Corner(b, 5));
    assert Accepts(load, m, Corner(b, 6)) && Accepts(load, m, Corner(b, 7));
    AcceptedOnX(load, m, b, p.x, b.min.y, b.min.z);
    AcceptedOnX(load, m, b, p.x, b.min.y, b.max.z);
    AcceptedOnX(load, m, b, p.x, b.max.y, b.min.z);
    AcceptedOnX(load, m, b, p.x, b.max.y, b.max.z);
    AcceptedOnY(load, m, b, p.x, p.y, b.min.z);
    AcceptedOnY(load, m, b, p.x, p.y, b.max.z);
    AcceptedOnZ(load, m, b, p.x, p.y, p.z);
  }

  datatype Solid = Solid(bounds: Bounds, transform: seq<real>)

  ghost predicate ValidSolids(solids: seq<Solid>) {
    forall d :: 0 <= d < |solids| ==> |solids[d].transform| == 16
  }

  /** The preflight over all solids: it stops at the first corner refused. */
  method AssertDomainAcceleration(load: Load, solids: seq<Solid>) returns (failure: Option<CentrifugalError>)
    requires ValidSolids(solids)
    ensures failure == None <==>
      forall d :: 0 <= d < |solids| ==> CornersAccepted(load, solids[d].transform, solids[d].bounds)
    ensures failure != None ==> failure.value == if IsCentrifugalLoad(load) then AccelerationLimit else InputInvalid
  {
    for d := 0 to |solids|
      invariant forall e :: 0 <= e < d ==> CornersAccepted(load, solids[e].transform, solids[e].bounds)
    {
      failure := AssertCorners(load, solids[d].transform, solids[d].bounds);
      if failure != None {
        return failure;
      }
    }
    return None;
  }

  method AssertCorners(load: Load, m: seq<real>, b: Bounds) returns (failure: Option<CentrifugalError>)
    requires |m| == 16
    ensures failure == None <==> CornersAccepted(load, m, b)
    ensures failure != None ==> failure.value == if IsCentrifugalLoad(load) then AccelerationLimit else InputInvalid
  {
    for x := 0 to 2
      invariant forall i :: 0 <= i < 4 * x ==> Accepts(load, m, Corner(b, i))
    {
      for y := 0 to 2
        invariant forall i :: 0 <= i < 4 * x + 2 * y ==> Accepts(load, m, Corner(b, i))
      {
        for z := 0 to 2
          invariant forall i :: 0 <= i < 4 * x + 2 * y + z ==> Accepts(load, m, Corner(b, i))
        {
          var corner := Vec3(if x == 0 then b.min.x else b.max.x,
                             if y == 0 then b.min.y else b.max.y,
                             if z == 0 then b.min.z else b.max.z);
          assert corner == Corner(b, 4 * x + 2 * y + z);
          var a := CentrifugalAcceleration(load, TransformPoint(m, corner));
          if a.Failure? {
            assert !Accepts(load, m, Corner(b, 4 * x + 2 * y + z));
            return Some(a.error);
          }
        }
      }
    }
    return None;
  }

  ghost predicate ValidBounds(b: Bounds) {
    b.min.x <= b.max.x && b.min.y <= b.max.y && b.min.z <= b.max.z
  }

  /** The corners are accepted exactly when the whole box is: nothing is missed
      and nothing is refused that need not be. */
  lemma CornersDecide(load: Load, m: seq<real>, b: Bounds)
    requires |m| == 16 && ValidBounds(b)
    ensures CornersAccepted(load, m, b) <==> forall p :: Inside(b, p) ==> Accepts(load, m, p)
  {
    if CornersAccepted(load, m, b) {
      forall p | Inside(b, p) ensures Accepts(load, m, p) {
        WholeBoxAccepted(load, m, b, p);
      }
    } else {
      var i :| 0 <= i < 8 && !Accepts(load, m, Corner(b, i));
      assert Inside(b, Corner(b, i));
    }
  }
}
