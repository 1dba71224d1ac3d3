/** Which vector the centrifugal acceleration is: the offset from the nearest point
    of the axis times the squared speed, pointing away from the axis. */
module AxisDistance {
  import opened Wrappers
  import opened FemModel
  import opened TetraGeometry
  import opened Centrifugal

  /** The point of the axis a distance `s` along its direction. */
  function AxisAt(load: Load, s: real): Vec3 {
    Sum(load.axisPoint, Scaled(load.axisDirection, s))
  }

  /** The point of the axis level with the given one. */
  function Foot(load: Load, point: Vec3): Vec3 {
    AxisAt(load, Axial(load, point))
  }

  function FromAxis(load: Load, point: Vec3): Vec3 {
    point.Minus(Foot(load, point))
  }

  lemma RestIsScaled(a: Vec3, w: real, d: Vec3, k: real, n: Vec3, r: Vec3)
    requires ScaledRest(a, w, d, k, n) && Moved(d, r, n, -k)
    ensures a == Scaled(r, w)
  {
    SameOffset(w, d.x, k, n.x, r.x);
    SameOffset(w, d.y, k, n.y, r.y);
    SameOffset(w, d.z, k, n.z, r.z);
  }

  lemma SameOffset(w: real, d: real, k: real, n: real, r: real)
    requires r == d + -k * n
    ensures w * (d - k * n) == w * r
  {
  }

  lemma RawIsScaled(load: Load, point: Vec3)
    ensures RawAcceleration(load, point) == Scaled(FromAxis(load, point), load.omegaSquared)
  {
    var d, k := point.Minus(load.axisPoint), Axial(load, point);
    IsScaledRest(load, point, RawAcceleration(load, point), d, k);
    OffsetMoved(load, point);
    RestIsScaled(RawAcceleration(load, point), load.omegaSquared, d, k, load.axisDirection, FromAxis(load, point));
  }

  // ---------------------------------------------------------------- orthogonal to a unit axis

  lemma DotOfMove(d: Vec3, n: Vec3, k: real, e: Vec3, v: Vec3)
    requires Moved(d, e, n, k)
    ensures e.Dot(v) == d.Dot(v) + k * n.Dot(v)
  {
    MoveTerm(d.x, n.x, k, e.x, v.x);
    MoveTerm(d.y, n.y, k, e.y, v.y);
    MoveTerm(d.z, n.z, k, e.z, v.z);
    Factor(k, n.x * v.x, n.y * v.y, n.z * v.z);
  }

  lemma MoveTerm(d: real, n: real, k: real, e: real, v: real)
    requires e == d + k * n
    ensures e * v == d * v + k * (n * v)
  {
  }

  lemma Factor(k: real, x: real, y: real, z: real)
    ensures k * x + k * y + k * z == k * (x + y + z)
  {
  }

  lemma OffsetMoved(load: Load, point: Vec3)
    ensures Moved(point.Minus(load.axisPoint), FromAxis(load, point), load.axisDirection, -Axial(load, point))
    ensures Moved(FromAxis(load, point), point.Minus(load.axisPoint), load.axisDirection, Axial(load, point))
  {
  }

  lemma NoAxialPart(k: real, length: real, dot: real)
    requires length == 1.0 && dot == k + -k * length
    ensures dot == 0.0
  {
  }

  lemma FromUnitAxis(load: Load, point: Vec3)
    requires SquaredLength(load.axisDirection) == 1.0
    ensures FromAxis(load, point).Dot(load.axisDirection) == 0.0
  {
    var d, n, k := point.Minus(load.axisPoint), load.axisDirection, Axial(load, point);
    OffsetMoved(load, point);
    DotOfMove(d, n, -k, FromAxis(load, point), n);
    NoAxialPart(k, n.Dot(n), FromAxis(load, point).Dot(n));
  }

  lemma Commutes(u: Vec3, v: Vec3)
    ensures u.Dot(v) == v.Dot(u)
  {
  }

  lemma NothingAdded(k: real, dot: real, a: real, b: real)
    requires dot == 0.0 && a == b + k * dot
    ensures a == b
  {
  }

  /** The offset from the axis point reaches as far from the axis as the point does. */
  lemma OffsetReaches(load: Load, point: Vec3)
    requires SquaredLength(load.axisDirection) == 1.0
    ensures FromAxis(load, point).Dot(point.Minus(load.axisPoint)) == SquaredLength(FromAxis(load, point))
  {
    var r, d, n, k := FromAxis(load, point), point.Minus(load.axisPoint), load.axisDirection, Axial(load, point);
    OffsetMoved(load, point);
    FromUnitAxis(load, point);
    DotOfMove(r, n, k, d, r);
    Commutes(d, r);
    Commutes(n, r);
    NothingAdded(k, n.Dot(r), d.Dot(r), r.Dot(r));
  }

  // ---------------------------------------------------------------- the nearest point of the axis

  lemma AlongAxis(load: Load, point: Vec3, s: real)
    ensures Moved(FromAxis(load, point), point.Minus(AxisAt(load, s)), load.axisDirection, Axial(load, point) - s)
  {
    var n, k, r, q := load.axisDirection, Axial(load, point), FromAxis(load, point), point.Minus(AxisAt(load, s));
    AlongTerm(point.x, load.axisPoint.x, n.x, k, s);
    AlongTerm(point.y, load.axisPoint.y, n.y, k, s);
    AlongTerm(point.z, load.axisPoint.z, n.z, k, s);
  }

  lemma AlongTerm(p: real, a: real, n: real, k: real, s: real)
    ensures p - (a + s * n) == p - (a + k * n) + (k - s) * n
  {
  }

  lemma Pythagoras(r: Vec3, n: Vec3, t: real, q: Vec3)
    requires Moved(r, q, n, t) && r.Dot(n) == 0.0 && n.Dot(n) == 1.0
    ensures SquaredLength(q) == SquaredLength(r) + t * t
  {
    DotOfMove(r, n, t, q, r);
    DotOfMove(r, n, t, q, n);
    DotOfMove(r, n, t, q, q);
    Commutes(q, r);
    Commutes(q, n);
    Commutes(r, n);
    Hypotenuse(t, r.Dot(r), r.Dot(n), n.Dot(n), q.Dot(r), q.Dot(n), q.Dot(q));
  }

  lemma Hypotenuse(t: real, rr: real, rn: real, nn: real, qr: real, qn: real, qq: real)
    requires rn == 0.0 && nn == 1.0 && qr == rr + t * rn && qn == rn + t * nn && qq == qr + t * qn
    ensures qq == rr + t * t
  {
  }

  /** No point of a unit axis is nearer than the foot. */
  lemma FootIsNearest(load: Load, point: Vec3, s: real)
    requires SquaredLength(load.axisDirection) == 1.0
    ensures SquaredLength(point.Minus(Foot(load, point))) <= SquaredLength(point.Minus(AxisAt(load, s)))
  {
    var t := Axial(load, point) - s;
    FromUnitAxis(load, point);
    AlongAxis(load, point, s);
    Pythagoras(FromAxis(load, point), load.axisDirection, t, point.Minus(AxisAt(load, s)));
    SquareNonnegative(t);
  }

  // ---------------------------------------------------------------- the value returned

  lemma ScaledDot(r: Vec3, w: real, v: Vec3)
    ensures Scaled(r, w).Dot(v) == w * r.Dot(v)
  {
    ScaledTerm(w, r.x, v.x);
    ScaledTerm(w, r.y, v.y);
    ScaledTerm(w, r.z, v.z);
    Factor(w, r.x * v.x, r.y * v.y, r.z * v.z);
  }

  lemma ScaledTerm(w: real, r: real, v: real)
    ensures (w * r) * v == w * (r * v)
  {
  }

  /** What is returned is the offset from a point of the axis times the squared
      speed, and within 1e9. */
  lemma ReturnedVector(load: Load, point: Vec3, v: Vec3)
    requires CentrifugalAcceleration(load, point) == Success(v)
    ensures v == Scaled(point.Minus(Foot(load, point)), load.omegaSquared)
    ensures SquaredLength(v) <= 1000000000000000000.0
  {
    RawIsScaled(load, point);
  }

  /** Orthogonal to the axis and straight away from its nearest point, `w` times as
      long as the distance from there. */
  ghost predicate PointsAway(load: Load, point: Vec3, w: real, v: Vec3) {
    && v.Dot(load.axisDirection) == 0.0
    && v.Dot(point.Minus(load.axisPoint)) == w * SquaredLength(point.Minus(Foot(load, point)))
  }

  lemma ScaledOrthogonal(r: Vec3, w: real, n: Vec3)
    requires r.Dot(n) == 0.0
    ensures Scaled(r, w).Dot(n) == 0.0
  {
    ScaledDot(r, w, n);
  }

  lemma ScaledReach(r: Vec3, w: real, d: Vec3, squared: real)
    requires r.Dot(d) == squared
    ensures Scaled(r, w).Dot(d) == w * squared
  {
    ScaledDot(r, w, d);
  }

  lemma ScaledPointsAway(load: Load, point: Vec3, w: real)
    requires SquaredLength(load.axisDirection) == 1.0
    ensures PointsAway(load, point, w, Scaled(FromAxis(load, point), w))
  {
    var r := FromAxis(load, point);
    FromUnitAxis(load, point);
    OffsetReaches(load, point);
    ScaledOrthogonal(r, w, load.axisDirection);
    ScaledReach(r, w, point.Minus(load.axisPoint), SquaredLength(r));
  }

  /** About a unit axis it points straight away from the axis. */
  lemma ReturnedOutward(load: Load, point: Vec3, v: Vec3)
    requires CentrifugalAcceleration(load, point) == Success(v) && SquaredLength(load.axisDirection) == 1.0
    ensures PointsAway(load, point, load.omegaSquared, v)
  {
    ReturnedVector(load, point, v);
    ScaledPointsAway(load, point, load.omegaSquared);
  }

  lemma LengthOfScaled(r: Vec3, w: real)
    ensures SquaredLength(Scaled(r, w)) == w * (w * SquaredLength(r))
  {
    ScaledDot(r, w, Scaled(r, w));
    Commutes(r, Scaled(r, w));
    ScaledDot(r, w, r);
  }

  lemma LimitInDigits(a: Vec3)
    ensures WithinLimit(a) <==> SquaredLength(a) <= 1000000000000000000.0
  {
  }

  /** The squared length of what would be returned. */
  function Reach(load: Load, point: Vec3): real {
    load.omegaSquared * (load.omegaSquared * SquaredLength(point.Minus(Foot(load, point))))
  }

  lemma ReachDecides(load: Load, point: Vec3)
    ensures WithinLimit(RawAcceleration(load, point)) <==> Reach(load, point) <= 1000000000000000000.0
  {
    RawIsScaled(load, point);
    LengthOfScaled(FromAxis(load, point), load.omegaSquared);
    LimitInDigits(Scaled(FromAxis(load, point), load.omegaSquared));
  }

  /** Exactly when a vector is returned, and what is said otherwise. */
  lemma ReturnedExactly(load: Load, point: Vec3)
    ensures CentrifugalAcceleration(load, point) == Failure(InputInvalid) <==> !IsCentrifugalLoad(load)
    ensures CentrifugalAcceleration(load, point) == Failure(AccelerationLimit) <==>
      IsCentrifugalLoad(load) && Reach(load, point) > 1000000000000000000.0
  {
    ReachDecides(load, point);
  }

  lemma SquareMonotone(x: real, y: real)
    requires x >= 0.0 && y >= 0.0
    ensures x <= y <==> x * x <= y * y
  {
    assert y * y - x * x == (y - x) * (y + x);
    if x <= y {
      ProductNonnegative(y - x, y + x);
    } else {
      ProductNonnegative(x - y, y + x);
    }
  }

  lemma NearOneExactly(length: real)
    requires length >= 0.0
    ensures 0.9999999999 * 0.9999999999 <= length * length <= 1.0000000001 * 1.0000000001 <==>
      Abs(length - 1.0) <= 0.0000000001
  {
    SquareMonotone(0.9999999999, length);
    SquareMonotone(length, 1.0000000001);
  }

  /** The limits on a load; `length` is that of its direction. */
  lemma AdmittedExactly(load: Load, length: real)
    requires length >= 0.0 && length * length == SquaredLength(load.axisDirection)
    ensures IsCentrifugalLoad(load) <==>
      && 0.0 < load.speedRpm <= 60000.0
      && -1000000.0 <= load.axisPoint.x <= 1000000.0
      && -1000000.0 <= load.axisPoint.y <= 1000000.0
      && -1000000.0 <= load.axisPoint.z <= 1000000.0
      && Abs(length - 1.0) <= 0.0000000001
  {
    NearOneExactly(length);
  }
}
