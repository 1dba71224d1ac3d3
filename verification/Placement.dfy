/** What a domain's transform does to coordinates: differences follow its linear part,
    a rigid one keeps distances, and volumes grow by its determinant. */
module Placement {
  import opened FemModel
  import opened TetraGeometry
  import opened TetraShape
  import opened Composition

  /** The rows of the linear part. */
  function RowOf(t: seq<real>, i: nat): Vec3
    requires |t| == 16 && i < 3
  {
    Vec3(t[4 * i], t[4 * i + 1], t[4 * i + 2])
  }

  /** The columns of the linear part. */
  function ColumnOf(t: seq<real>, j: nat): Vec3
    requires |t| == 16 && j < 3
  {
    Vec3(t[j], t[4 + j], t[8 + j])
  }

  function Linear(t: seq<real>, v: Vec3): Vec3
    requires |t| == 16
  {
    Vec3(RowOf(t, 0).Dot(v), RowOf(t, 1).Dot(v), RowOf(t, 2).Dot(v))
  }

  function Translation(t: seq<real>): Vec3
    requires |t| == 16
  {
    Vec3(t[3], t[7], t[11])
  }

  // ---------------------------------------------------------------- differences

  lemma DotDifference(a: Vec3, p: Vec3, q: Vec3)
    ensures a.Dot(p.Minus(q)) == a.Dot(p) - a.Dot(q)
  {
    Distributes(a.x, p.x, q.x);
    Distributes(a.y, p.y, q.y);
    Distributes(a.z, p.z, q.z);
  }

  lemma Distributes(a: real, x: real, u: real)
    ensures a * (x - u) == a * x - a * u
  {
  }

  lemma RowIsDot(a: real, b: real, c: real, d: real, p: Vec3)
    ensures TransformRow(a, b, c, d, p) == Vec3(a, b, c).Dot(p) + d
  {
  }

  lemma TransformRows(t: seq<real>, p: Vec3)
    requires |t| == 16
    ensures TransformPoint(t, p) ==
      Vec3(RowOf(t, 0).Dot(p) + t[3], RowOf(t, 1).Dot(p) + t[7], RowOf(t, 2).Dot(p) + t[11])
  {
    RowIsDot(t[0], t[1], t[2], t[3], p);
    RowIsDot(t[4], t[5], t[6], t[7], p);
    RowIsDot(t[8], t[9], t[10], t[11], p);
  }

  /** Differences of points are carried over by the linear part, and the rest is the
      translation. */
  lemma TransformDifference(t: seq<real>, p: Vec3, q: Vec3)
    requires |t| == 16
    ensures TransformPoint(t, p).Minus(TransformPoint(t, q)) == Linear(t, p.Minus(q))
    ensures TransformPoint(t, p).Minus(Translation(t)) == Linear(t, p)
  {
    TransformRows(t, p);
    TransformRows(t, q);
    DotDifference(RowOf(t, 0), p, q);
    DotDifference(RowOf(t, 1), p, q);
    DotDifference(RowOf(t, 2), p, q);
  }

  // ---------------------------------------------------------------- nearly rigid transforms

  /** The linear combination of three vectors. */
  function Mixed(p: Vec3, q: Vec3, r: Vec3, v: Vec3): Vec3 {
    Sum(Scaled(p, v.x), Sum(Scaled(q, v.y), Scaled(r, v.z)))
  }

  /** A number put together from three others. */
  ghost predicate IsMixed(d: real, v: Vec3, x: real, y: real, z: real) {
    d == v.x * x + v.y * y + v.z * z
  }

  ghost predicate Close(x: real, y: real, gap: real) {
    y - gap <= x <= y + gap
  }

  /** Rows of length one, orthogonal to each other, with determinant one, all of it up to
      the given gap. */
  ghost predicate Rigid(a: Vec3, b: Vec3, c: Vec3, gap: real) {
    && Close(SquaredLength(a), 1.0, gap) && Close(SquaredLength(b), 1.0, gap) && Close(SquaredLength(c), 1.0, gap)
    && Close(a.Dot(b), 0.0, gap) && Close(b.Dot(c), 0.0, gap) && Close(c.Dot(a), 0.0, gap)
    && Close(Determinant(a, b, c), 1.0, gap)
  }

  lemma DotCommutes(u: Vec3, v: Vec3)
    ensures u.Dot(v) == v.Dot(u)
  {
  }

  lemma ScaledDot(u: Vec3, k: real, v: Vec3)
    ensures Scaled(u, k).Dot(v) == k * u.Dot(v)
  {
    Regroup(k, u.x, v.x);
    Regroup(k, u.y, v.y);
    Regroup(k, u.z, v.z);
    SumOfThree(k, u.x * v.x, u.y * v.y, u.z * v.z);
  }

  lemma Regroup(k: real, x: real, y: real)
    ensures (k * x) * y == k * (x * y)
  {
  }

  lemma DotOfSum(u: Vec3, v: Vec3, w: Vec3)
    ensures Sum(u, v).Dot(w) == u.Dot(w) + v.Dot(w)
  {
    Spread(u.x, v.x, w.x);
    Spread(u.y, v.y, w.y);
    Spread(u.z, v.z, w.z);
  }

  lemma Spread(x: real, y: real, k: real)
    ensures (x + y) * k == x * k + y * k
  {
  }

  lemma MixedDot(a: Vec3, b: Vec3, c: Vec3, u: Vec3, v: Vec3)
    ensures IsMixed(Mixed(a, b, c, u).Dot(v), u, a.Dot(v), b.Dot(v), c.Dot(v))
  {
    DotOfSum(Scaled(a, u.x), Sum(Scaled(b, u.y), Scaled(c, u.z)), v);
    DotOfSum(Scaled(b, u.y), Scaled(c, u.z), v);
    ScaledDot(a, u.x, v);
    ScaledDot(b, u.y, v);
    ScaledDot(c, u.z, v);
  }

  /** Between the lengths of a combination and of its coefficients. */
  ghost predicate Comparable(length: real, other: real, gap: real) {
    (1.0 - 3.0 * gap) * other <= length <= (1.0 + 3.0 * gap) * other
  }

  ghost predicate TwiceWithin(p: real, q: real, gap: real) {
    -(gap * q) <= 2.0 * p <= gap * q
  }

  ghost predicate OnceWithin(p: real, q: real, gap: real) {
    (1.0 - gap) * q <= p <= (1.0 + gap) * q
  }

  /** Put together from three numbers and twice three others. */
  ghost predicate IsForm(length: real, a: real, b: real, c: real, p: real, q: real, r: real) {
    length == a + b + c + 2.0 * p + 2.0 * q + 2.0 * r
  }

  function Term(x: real, y: real, d: real): real {
    x * (y * d)
  }

  lemma TwiceAtMost(x: real, y: real, d: real, gap: real)
    requires Close(d, 0.0, gap)
    ensures TwiceWithin(Term(x, y, d), Square(x) + Square(y), gap)
  {
    SquareNonnegative(x - y);
    SquareNonnegative(x + y);
    var p, q := x * y, x * x + y * y;
    assert -q <= 2.0 * p <= q;
    ProductsAtMost(p, q, d, gap);
    assert x * (y * d) == p * d;
  }

  lemma ProductsAtMost(p: real, q: real, d: real, gap: real)
    requires -q <= 2.0 * p <= q && -gap <= d <= gap
    ensures -(gap * q) <= 2.0 * (p * d) <= gap * q
  {
    ProductNonnegative(q - 2.0 * p, gap + d);
    ProductNonnegative(q + 2.0 * p, gap - d);
    ProductNonnegative(q - 2.0 * p, gap - d);
    ProductNonnegative(q + 2.0 * p, gap + d);
  }

  lemma OnceAtMost(x: real, d: real, gap: real)
    requires Close(d, 1.0, gap)
    ensures OnceWithin(Term(x, x, d), Square(x), gap)
  {
    SquareNonnegative(x);
    ProductNonnegative(x * x, d - (1.0 - gap));
    ProductNonnegative(x * x, 1.0 + gap - d);
    assert x * (x * d) == (x * x) * d;
  }

  /** A combination's products with itself and with its vectors. */
  lemma LengthInProducts(a: Vec3, b: Vec3, c: Vec3, u: Vec3, p: Vec3)
    requires p == Mixed(a, b, c, u)
    ensures IsMixed(SquaredLength(p), u, p.Dot(a), p.Dot(b), p.Dot(c))
    ensures IsMixed(p.Dot(a), u, SquaredLength(a), a.Dot(b), c.Dot(a))
    ensures IsMixed(p.Dot(b), u, a.Dot(b), SquaredLength(b), b.Dot(c))
    ensures IsMixed(p.Dot(c), u, c.Dot(a), b.Dot(c), SquaredLength(c))
  {
    MixedDot(a, b, c, u, p);
    MixedDot(a, b, c, u, a);
    MixedDot(a, b, c, u, b);
    MixedDot(a, b, c, u, c);
    DotCommutes(a, p);
    DotCommutes(b, p);
    DotCommutes(c, p);
    DotCommutes(a, b);
    DotCommutes(b, c);
    DotCommutes(c, a);
  }

  lemma RowInParts(k: real, p: real, q: real, r: real)
    ensures k * (p + q + r) == k * p + k * q + k * r
  {
  }

  /** One row of the form, times its coefficient. */
  lemma RowOfTerms(k: real, u: Vec3, sum: real, p: real, q: real, r: real)
    requires IsMixed(sum, u, p, q, r)
    ensures k * sum == Term(k, u.x, p) + Term(k, u.y, q) + Term(k, u.z, r)
  {
    RowInParts(k, u.x * p, u.y * q, u.z * r);
  }

  lemma SwappedFactors(x: real, y: real, d: real)
    ensures Term(y, x, d) == Term(x, y, d)
  {
  }

  /** What is said of lengths of one and of orthogonal vectors, in numbers. */
  lemma FormIsComparable(u: Vec3, length: real, aa: real, bb: real, cc: real, ab: real, bc: real, ca: real, gap: real)
    requires IsForm(length, Term(u.x, u.x, aa), Term(u.y, u.y, bb), Term(u.z, u.z, cc),
      Term(u.x, u.y, ab), Term(u.y, u.z, bc), Term(u.z, u.x, ca))
    requires Close(aa, 1.0, gap) && Close(bb, 1.0, gap) && Close(cc, 1.0, gap)
    requires Close(ab, 0.0, gap) && Close(bc, 0.0, gap) && Close(ca, 0.0, gap)
    ensures Comparable(length, SquaredLength(u), gap)
  {
    OnceAtMost(u.x, aa, gap);
    OnceAtMost(u.y, bb, gap);
    OnceAtMost(u.z, cc, gap);
    TwiceAtMost(u.x, u.y, ab, gap);
    TwiceAtMost(u.y, u.z, bc, gap);
    TwiceAtMost(u.z, u.x, ca, gap);
    Gathered(Square(u.x), Square(u.y), Square(u.z), Term(u.x, u.x, aa), Term(u.y, u.y, bb), Term(u.z, u.z, cc),
      Term(u.x, u.y, ab), Term(u.y, u.z, bc), Term(u.z, u.x, ca), length, gap);
    LengthInSquares(u);
  }

  lemma LengthInSquares(u: Vec3)
    ensures SquaredLength(u) == Square(u.x) + Square(u.y) + Square(u.z)
  {
  }

  lemma FormInParts(u: Vec3, length: real, pa: real, pb: real, pc: real, aa: real, bb: real, cc: real, ab: real,
      bc: real, ca: real)
    requires IsMixed(length, u, pa, pb, pc) && IsMixed(pa, u, aa, ab, ca) && IsMixed(pb, u, ab, bb, bc)
    requires IsMixed(pc, u, ca, bc, cc)
    ensures IsForm(length, Term(u.x, u.x, aa), Term(u.y, u.y, bb), Term(u.z, u.z, cc),
      Term(u.x, u.y, ab), Term(u.y, u.z, bc), Term(u.z, u.x, ca))
  {
    RowOfTerms(u.x, u, pa, aa, ab, ca);
    RowOfTerms(u.y, u, pb, ab, bb, bc);
    RowOfTerms(u.z, u, pc, ca, bc, cc);
    SwappedFactors(u.z, u.x, ca);
    SwappedFactors(u.x, u.y, ab);
    SwappedFactors(u.y, u.z, bc);
  }

  lemma Gathered(xx: real, yy: real, zz: real, a: real, b: real, c: real, p: real, q: real, r: real, length: real,
      gap: real)
    requires IsForm(length, a, b, c, p, q, r)
    requires OnceWithin(a, xx, gap) && OnceWithin(b, yy, gap) && OnceWithin(c, zz, gap)
    requires TwiceWithin(p, xx + yy, gap) && TwiceWithin(q, yy + zz, gap) && TwiceWithin(r, zz + xx, gap)
    ensures Comparable(length, xx + yy + zz, gap)
  {
  }

  /** Combining nearly orthonormal vectors nearly keeps the length of the coefficients. */
  lemma CombinationIsComparable(a: Vec3, b: Vec3, c: Vec3, u: Vec3, gap: real)
    requires Rigid(a, b, c, gap)
    ensures Comparable(SquaredLength(Mixed(a, b, c, u)), SquaredLength(u), gap)
  {
    var p := Mixed(a, b, c, u);
    LengthInProducts(a, b, c, u, p);
    FormInParts(u, SquaredLength(p), p.Dot(a), p.Dot(b), p.Dot(c), SquaredLength(a), SquaredLength(b),
      SquaredLength(c), a.Dot(b), b.Dot(c), c.Dot(a));
    FormIsComparable(u, SquaredLength(p), SquaredLength(a), SquaredLength(b), SquaredLength(c),
      a.Dot(b), b.Dot(c), c.Dot(a), gap);
  }

  // ---------------------------------------------------------------- every vector is a combination

  lemma OwnCofactor(a: Vec3, b: Vec3, c: Vec3)
    ensures a.x * b.Cross(c).x + b.x * c.Cross(a).x + c.x * a.Cross(b).x == Determinant(a, b, c)
  {
    assert b.x * (c.y * a.z - c.z * a.y) == -(b.x * (a.y * c.z - a.z * c.y));
  }

  lemma OtherCofactor(p: real, q: real, r: real, x: real, y: real, z: real)
    ensures p * (y * r - q * z) + q * (z * p - r * x) + r * (x * q - p * y) == 0.0
  {
    assert p * (y * r - q * z) == p * y * r - p * q * z;
    assert q * (z * p - r * x) == p * q * z - q * r * x;
    assert r * (x * q - p * y) == q * r * x - p * y * r;
  }

  lemma MirroredCofactor(p: real, q: real, r: real, x: real, y: real, z: real)
    ensures p * (q * z - y * r) + q * (r * x - z * p) + r * (p * y - x * q) == 0.0
  {
    assert p * (q * z - y * r) == p * q * z - p * y * r;
    assert q * (r * x - z * p) == q * r * x - p * q * z;
    assert r * (p * y - x * q) == p * y * r - q * r * x;
  }

  lemma SecondCofactors(a: Vec3, b: Vec3, c: Vec3)
    ensures a.x * b.Cross(c).y + b.x * c.Cross(a).y + c.x * a.Cross(b).y == 0.0
  {
    OtherCofactor(a.x, b.x, c.x, a.z, b.z, c.z);
  }

  lemma ThirdCofactors(a: Vec3, b: Vec3, c: Vec3)
    ensures a.x * b.Cross(c).z + b.x * c.Cross(a).z + c.x * a.Cross(b).z == 0.0
  {
    MirroredCofactor(a.x, b.x, c.x, a.y, b.y, c.y);
  }

  /** The first coordinate of a vector from its products with the cross products. */
  lemma FirstCoordinate(a: Vec3, b: Vec3, c: Vec3, v: Vec3, d: real)
    requires d == Determinant(a, b, c)
    ensures a.x * v.Dot(b.Cross(c)) + b.x * v.Dot(c.Cross(a)) + c.x * v.Dot(a.Cross(b)) == d * v.x
  {
    var n, m, k := b.Cross(c), c.Cross(a), a.Cross(b);
    OwnCofactor(a, b, c);
    SecondCofactors(a, b, c);
    ThirdCofactors(a, b, c);
    Exchanged(a.x, b.x, c.x, v, n, m, k, d, 0.0);
  }

  lemma Exchanged(p: real, q: real, r: real, v: Vec3, n: Vec3, m: Vec3, k: Vec3, d: real, zero: real)
    requires p * n.x + q * m.x + r * k.x == d && p * n.y + q * m.y + r * k.y == zero && zero == 0.0
    requires p * n.z + q * m.z + r * k.z == zero
    ensures p * v.Dot(n) + q * v.Dot(m) + r * v.Dot(k) == d * v.x
  {
    RowInParts(p, v.x * n.x, v.y * n.y, v.z * n.z);
    RowInParts(q, v.x * m.x, v.y * m.y, v.z * m.z);
    RowInParts(r, v.x * k.x, v.y * k.y, v.z * k.z);
    ColumnTogether(v.x, p, q, r, n.x, m.x, k.x);
    ColumnTogether(v.y, p, q, r, n.y, m.y, k.y);
    ColumnTogether(v.z, p, q, r, n.z, m.z, k.z);
    assert v.y * zero == 0.0 && v.z * zero == 0.0;
  }

  lemma ColumnTogether(x: real, p: real, q: real, r: real, a: real, b: real, c: real)
    ensures p * (x * a) + q * (x * b) + r * (x * c) == x * (p * a + q * b + r * c)
  {
    RowInParts(x, p * a, q * b, r * c);
    Regroup(x, p, a);
  }

  lemma RotatedCross(a: Vec3, b: Vec3)
    ensures Rotated(a).Cross(Rotated(b)) == Rotated(a.Cross(b))
  {
  }

  lemma RotatedDot(a: Vec3, b: Vec3)
    ensures Rotated(a).Dot(Rotated(b)) == a.Dot(b)
  {
  }

  lemma RotatedColumns(a: Vec3, b: Vec3, c: Vec3)
    ensures Determinant(Rotated(a), Rotated(b), Rotated(c)) == Determinant(a, b, c)
  {
    MixedProduct(a, b, c);
    MixedProduct(Rotated(a), Rotated(b), Rotated(c));
    RotatedCross(b, c);
    RotatedDot(a, b.Cross(c));
  }

  /** The coefficients by which a vector is combined from three others, times their
      determinant. */
  function Coefficients(a: Vec3, b: Vec3, c: Vec3, v: Vec3): Vec3 {
    Vec3(v.Dot(b.Cross(c)), v.Dot(c.Cross(a)), v.Dot(a.Cross(b)))
  }

  /** The first coordinate of a combination. */
  ghost predicate Combines(k: Vec3, p: real, q: real, r: real, d: real, x: real) {
    p * k.x + q * k.y + r * k.z == d * x
  }

  lemma CoefficientsRotate(a: Vec3, b: Vec3, c: Vec3, v: Vec3)
    ensures Coefficients(Rotated(a), Rotated(b), Rotated(c), Rotated(v)) == Coefficients(a, b, c, v)
  {
    RotatedCross(b, c);
    RotatedCross(c, a);
    RotatedCross(a, b);
    RotatedDot(v, b.Cross(c));
    RotatedDot(v, c.Cross(a));
    RotatedDot(v, a.Cross(b));
  }

  lemma FirstCombines(a: Vec3, b: Vec3, c: Vec3, v: Vec3, d: real)
    requires d == Determinant(a, b, c)
    ensures Combines(Coefficients(a, b, c, v), a.x, b.x, c.x, d, v.x)
  {
    FirstCoordinate(a, b, c, v, d);
  }

  lemma AllCombine(a: Vec3, b: Vec3, c: Vec3, v: Vec3, k: Vec3, d: real)
    requires d == Determinant(a, b, c) && k == Coefficients(a, b, c, v)
    ensures Combines(k, a.x, b.x, c.x, d, v.x) && Combines(k, a.y, b.y, c.y, d, v.y)
    ensures Combines(k, a.z, b.z, c.z, d, v.z)
  {
    FirstCombines(a, b, c, v, d);
    RotatedColumns(a, b, c);
    CoefficientsRotate(a, b, c, v);
    FirstCombines(Rotated(a), Rotated(b), Rotated(c), Rotated(v), d);
    RotatedColumns(Rotated(a), Rotated(b), Rotated(c));
    CoefficientsRotate(Rotated(a), Rotated(b), Rotated(c), Rotated(v));
    FirstCombines(Rotated(Rotated(a)), Rotated(Rotated(b)), Rotated(Rotated(c)), Rotated(Rotated(v)), d);
  }

  lemma Quotient(k: Vec3, p: real, q: real, r: real, d: real, x: real, u: Vec3)
    requires d > 0.0 && Combines(k, p, q, r, d, x) && u == Vec3(k.x / d, k.y / d, k.z / d)
    ensures u.x * p + (u.y * q + u.z * r) == x
  {
    assert d * u.x == k.x && d * u.y == k.y && d * u.z == k.z;
    var sum := u.x * p + (u.y * q + u.z * r);
    RowInParts(d, u.x * p, u.y * q, u.z * r);
    Regroup(d, u.x, p);
    Regroup(d, u.y, q);
    Regroup(d, u.z, r);
    assert d * sum == d * x;
    SameFactor(d, sum, x);
  }

  lemma SameFactor(d: real, x: real, y: real)
    requires d > 0.0 && d * x == d * y
    ensures x == y
  {
    assert d * (x - y) == 0.0;
  }

  /** Vectors with a positive determinant combine to every vector. */
  lemma EveryVectorCombines(a: Vec3, b: Vec3, c: Vec3, v: Vec3) returns (u: Vec3)
    requires Determinant(a, b, c) > 0.0
    ensures Mixed(a, b, c, u) == v
  {
    var d, k := Determinant(a, b, c), Coefficients(a, b, c, v);
    AllCombine(a, b, c, v, k, d);
    u := Vec3(k.x / d, k.y / d, k.z / d);
    Quotient(k, a.x, b.x, c.x, d, v.x, u);
    Quotient(k, a.y, b.y, c.y, d, v.y, u);
    Quotient(k, a.z, b.z, c.z, d, v.z, u);
  }

  // ---------------------------------------------------------------- lengths

  lemma Nonnegative(x: real, v: real)
    requires v > 0.0 && x * v >= 0.0
    ensures x >= 0.0
  {
    assert (x * v) / v == x;
  }

  lemma AtMostBySquare(w: real, v: real, p: real, factor: real)
    requires w >= 0.0 && v >= 0.0 && w * w <= v * p && p <= factor * w && factor >= 0.0
    ensures w <= factor * v
  {
    ProductNonnegative(v, factor * w - p);
    ProductNonnegative(factor, v);
    assert v * (factor * w) == (factor * v) * w;
    if w > 0.0 {
      Nonnegative(factor * v - w, w);
    }
  }

  lemma AtLeastBySquare(w: real, v: real, u: real, factor: real)
    requires w >= 0.0 && v >= 0.0 && v * v <= u * w && factor * u <= v && factor > 0.0
    ensures factor * v <= w
  {
    ProductNonnegative(w, v - factor * u);
    ProductNonnegative(factor, u * w - v * v);
    assert factor * (u * w) == (factor * u) * w && factor * (v * v) == (factor * v) * v;
    if v > 0.0 {
      Nonnegative(w - factor * v, v);
    }
  }

  /** A nearly rigid linear part nearly keeps the length of every vector. */
  lemma RigidKeepsLength(a: Vec3, b: Vec3, c: Vec3, v: Vec3, gap: real)
    requires Rigid(a, b, c, gap) && 0.0 <= gap && 3.0 * gap < 1.0
    ensures Comparable(SquaredLength(Vec3(a.Dot(v), b.Dot(v), c.Dot(v))), SquaredLength(v), gap)
  {
    var w := Vec3(a.Dot(v), b.Dot(v), c.Dot(v));
    SquaredLengthNonnegative(w);
    SquaredLengthNonnegative(v);
    LongerAtMost(a, b, c, v, w, gap);
    ShorterAtMost(a, b, c, v, w, gap);
  }

  lemma SameMixed(u: Vec3, w: Vec3, d: real, e: real)
    requires d == u.Dot(w) && IsMixed(e, u, w.x, w.y, w.z)
    ensures d == e
  {
  }

  lemma LongerAtMost(a: Vec3, b: Vec3, c: Vec3, v: Vec3, w: Vec3, gap: real)
    requires Rigid(a, b, c, gap) && w == Vec3(a.Dot(v), b.Dot(v), c.Dot(v)) && 0.0 <= gap
    ensures SquaredLength(w) <= (1.0 + 3.0 * gap) * SquaredLength(v)
  {
    var p := Mixed(a, b, c, w);
    MixedDot(a, b, c, w, v);
    CombinationIsComparable(a, b, c, w, gap);
    CauchySchwarz(v, p);
    DotCommutes(v, p);
    SquaredLengthNonnegative(w);
    SquaredLengthNonnegative(v);
    SameMixed(w, w, SquaredLength(w), v.Dot(p));
    AtMostBySquare(SquaredLength(w), SquaredLength(v), SquaredLength(p), 1.0 + 3.0 * gap);
  }

  lemma ShorterAtMost(a: Vec3, b: Vec3, c: Vec3, v: Vec3, w: Vec3, gap: real)
    requires Rigid(a, b, c, gap) && w == Vec3(a.Dot(v), b.Dot(v), c.Dot(v)) && 0.0 <= gap && 3.0 * gap < 1.0
    ensures (1.0 - 3.0 * gap) * SquaredLength(v) <= SquaredLength(w)
  {
    var u := EveryVectorCombines(a, b, c, v);
    MixedDot(a, b, c, u, v);
    SameMixed(u, w, u.Dot(w), SquaredLength(v));
    CombinationIsComparable(a, b, c, u, gap);
    CauchySchwarz(u, w);
    SquaredLengthNonnegative(w);
    SquaredLengthNonnegative(v);
    AtLeastBySquare(SquaredLength(w), SquaredLength(v), SquaredLength(u), 1.0 - 3.0 * gap);
  }

  // ---------------------------------------------------------------- volumes

  lemma LinearIsMixed(t: seq<real>, v: Vec3)
    requires |t| == 16
    ensures Linear(t, v) == Mixed(ColumnOf(t, 0), ColumnOf(t, 1), ColumnOf(t, 2), v)
  {
  }

  lemma FirstMixed(p: Vec3, q: Vec3, r: Vec3, v: Vec3, u: Vec3, w: Vec3)
    ensures IsMixed(Determinant(Mixed(p, q, r, v), u, w), v,
      Determinant(p, u, w), Determinant(q, u, w), Determinant(r, u, w))
  {
    LinearColumn(p, u, w, Sum(Scaled(q, v.y), Scaled(r, v.z)), v.x);
    LinearColumn(q, u, w, Scaled(r, v.z), v.y);
    ScaledFirst(r, u, w, v.z);
  }

  lemma SecondMixed(p: Vec3, q: Vec3, r: Vec3, v: Vec3, u: Vec3, w: Vec3)
    ensures IsMixed(Determinant(u, Mixed(p, q, r, v), w), v,
      Determinant(u, p, w), Determinant(u, q, w), Determinant(u, r, w))
  {
    FirstMixed(p, q, r, v, w, u);
    RotatedDeterminant(u, Mixed(p, q, r, v), w);
    RotatedDeterminant(u, p, w);
    RotatedDeterminant(u, q, w);
    RotatedDeterminant(u, r, w);
  }

  lemma ThirdMixed(p: Vec3, q: Vec3, r: Vec3, v: Vec3, u: Vec3, w: Vec3)
    ensures IsMixed(Determinant(u, w, Mixed(p, q, r, v)), v,
      Determinant(u, w, p), Determinant(u, w, q), Determinant(u, w, r))
  {
    FirstMixed(p, q, r, v, u, w);
    RotatedDeterminant(Mixed(p, q, r, v), u, w);
    RotatedDeterminant(p, u, w);
    RotatedDeterminant(q, u, w);
    RotatedDeterminant(r, u, w);
  }

  lemma RepeatedColumn(p: Vec3, q: Vec3)
    ensures Determinant(p, p, q) == 0.0 && Determinant(p, q, p) == 0.0 && Determinant(q, p, p) == 0.0
  {
    ExchangedColumns(p, p, q);
    ExchangedColumns(p, q, p);
    ExchangedColumns(q, p, p);
  }

  /** With one column left, two of three determinants vanish. */
  lemma LastColumn(p: Vec3, q: Vec3, r: Vec3, w: Vec3, d: real)
    requires d == Determinant(p, q, r)
    ensures Grown(Determinant(p, q, Mixed(p, q, r, w)), w.z, d)
    ensures Grown(Determinant(q, r, Mixed(p, q, r, w)), w.x, d)
    ensures Grown(Determinant(r, p, Mixed(p, q, r, w)), w.y, d)
  {
    ThirdMixed(p, q, r, w, p, q);
    ThirdMixed(p, q, r, w, q, r);
    ThirdMixed(p, q, r, w, r, p);
    RepeatedColumn(p, q);
    RepeatedColumn(q, r);
    RepeatedColumn(r, p);
    RepeatedColumn(q, p);
    RepeatedColumn(r, q);
    RepeatedColumn(p, r);
    RotatedDeterminant(p, q, r);
    OneLeft(Determinant(p, q, Mixed(p, q, r, w)), Determinant(q, r, Mixed(p, q, r, w)),
      Determinant(r, p, Mixed(p, q, r, w)), w, d, 0.0);
  }

  lemma OneLeft(a: real, b: real, c: real, w: Vec3, d: real, zero: real)
    requires zero == 0.0 && IsMixed(a, w, zero, zero, d) && IsMixed(b, w, d, zero, zero)
    requires IsMixed(c, w, zero, d, zero)
    ensures Grown(a, w.z, d) && Grown(b, w.x, d) && Grown(c, w.y, d)
  {
  }

  /** The minor of two rows of two. */
  function Minor(vy: real, vz: real, wy: real, wz: real): real {
    vy * wz - vz * wy
  }

  /** With two columns left, what remains is a minor times the determinant. */
  lemma LastTwoColumns(p: Vec3, q: Vec3, r: Vec3, v: Vec3, w: Vec3, d: real)
    requires d == Determinant(p, q, r)
    ensures Grown(Determinant(p, Mixed(p, q, r, v), Mixed(p, q, r, w)), Minor(v.y, v.z, w.y, w.z), d)
  {
    var last := Mixed(p, q, r, w);
    SecondMixed(p, q, r, v, p, last);
    LastColumn(p, q, r, w, d);
    RepeatedColumn(p, last);
    ExchangedColumns(p, r, last);
    TwoLeft(Determinant(p, Mixed(p, q, r, v), last), v, w, Determinant(p, q, last), Determinant(r, p, last), d,
      Determinant(p, p, last), Determinant(p, r, last));
  }

  lemma TwoLeft(a: real, v: Vec3, w: Vec3, pq: real, rp: real, d: real, pp: real, pr: real)
    requires IsMixed(a, v, pp, pq, pr) && pp == 0.0 && pr == -rp && Grown(pq, w.z, d) && Grown(rp, w.y, d)
    ensures Grown(a, Minor(v.y, v.z, w.y, w.z), d)
  {
    assert v.y * pq == (v.y * w.z) * d;
    assert v.z * pr == -((v.z * w.y) * d);
  }

  lemma MixedRotates(p: Vec3, q: Vec3, r: Vec3, v: Vec3)
    ensures Mixed(q, r, p, Rotated(v)) == Mixed(p, q, r, v)
    ensures Mixed(r, p, q, Rotated(Rotated(v))) == Mixed(p, q, r, v)
  {
  }

  /** Each of the three columns in front of the other two combinations. */
  lemma ThreeInFront(p: Vec3, q: Vec3, r: Vec3, v: Vec3, w: Vec3, second: Vec3, last: Vec3, d: real)
    requires d == Determinant(p, q, r) && second == Mixed(p, q, r, v) && last == Mixed(p, q, r, w)
    ensures Grown(Determinant(p, second, last), Minor(v.y, v.z, w.y, w.z), d)
    ensures Grown(Determinant(q, second, last), Minor(v.z, v.x, w.z, w.x), d)
    ensures Grown(Determinant(r, second, last), Minor(v.x, v.y, w.x, w.y), d)
  {
    RotatedDeterminant(p, q, r);
    RotatedDeterminant(q, r, p);
    MixedRotates(p, q, r, v);
    MixedRotates(p, q, r, w);
    LastTwoColumns(p, q, r, v, w, d);
    LastTwoColumns(q, r, p, Rotated(v), Rotated(w), d);
    LastTwoColumns(r, p, q, Rotated(Rotated(v)), Rotated(Rotated(w)), d);
  }

  /** The determinant of three combinations is the product of two determinants. */
  lemma ProductOfDeterminants(p: Vec3, q: Vec3, r: Vec3, u: Vec3, v: Vec3, w: Vec3)
    ensures Grown(Determinant(Mixed(p, q, r, u), Mixed(p, q, r, v), Mixed(p, q, r, w)), Determinant(u, v, w),
      Determinant(p, q, r))
  {
    var second, last := Mixed(p, q, r, v), Mixed(p, q, r, w);
    FirstMixed(p, q, r, u, second, last);
    ThreeInFront(p, q, r, v, w, second, last, Determinant(p, q, r));
    ThreeMinors(Determinant(Mixed(p, q, r, u), second, last), u, v, w, Determinant(p, second, last),
      Determinant(q, second, last), Determinant(r, second, last), Determinant(p, q, r));
  }

  lemma ThreeMinors(a: real, u: Vec3, v: Vec3, w: Vec3, x: real, y: real, z: real, d: real)
    requires IsMixed(a, u, x, y, z)
    requires Grown(x, Minor(v.y, v.z, w.y, w.z), d) && Grown(y, Minor(v.z, v.x, w.z, w.x), d)
    requires Grown(z, Minor(v.x, v.y, w.x, w.y), d)
    ensures Grown(a, Determinant(u, v, w), d)
  {
    MixedProduct(u, v, w);
    MinorsAddUp(u.x, u.y, u.z, Minor(v.y, v.z, w.y, w.z), Minor(v.z, v.x, w.z, w.x), Minor(v.x, v.y, w.x, w.y),
      x, y, z, d);
  }

  lemma MinorsAddUp(ux: real, uy: real, uz: real, mx: real, my: real, mz: real, x: real, y: real, z: real, d: real)
    requires Grown(x, mx, d) && Grown(y, my, d) && Grown(z, mz, d)
    ensures ux * x + uy * y + uz * z == (ux * mx + uy * my + uz * mz) * d
  {
    assert ux * x == (ux * mx) * d;
    assert uy * y == (uy * my) * d;
    assert uz * z == (uz * mz) * d;
  }
}
