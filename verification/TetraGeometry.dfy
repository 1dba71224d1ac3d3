/** Straight tetrahedra: volume and the mean-ratio quality metric, with the
    bound between volume and edge lengths that keeps the metric in [0, 1]. */
module TetraGeometry {
  import opened FemModel

  datatype Tetra = Tetra(a: Vec3, b: Vec3, c: Vec3, d: Vec3)

  function Abs(x: real): (r: real)
    ensures r >= 0.0 && (r == x || r == -x)
  {
    if x < 0.0 then -x else x
  }

  /** The determinant of the matrix with the three given columns. */
  function Determinant(p: Vec3, q: Vec3, r: Vec3): real {
    p.x * (q.y * r.z - q.z * r.y) - q.x * (p.y * r.z - p.z * r.y) + r.x * (p.y * q.z - p.z * q.y)
  }

  function Signed6Volume(t: Tetra): real {
    Determinant(t.b.Minus(t.a), t.c.Minus(t.a), t.d.Minus(t.a))
  }

  function TetraVolume(t: Tetra): real {
    Abs(Signed6Volume(t)) / 6.0
  }

  function SquaredLength(v: Vec3): real {
    v.Dot(v)
  }

  /** The sum of the six squared edge lengths. */
  function EdgeSquared(t: Tetra): real {
    SquaredLength(t.a.Minus(t.b)) + SquaredLength(t.a.Minus(t.c)) + SquaredLength(t.a.Minus(t.d))
    + SquaredLength(t.b.Minus(t.c)) + SquaredLength(t.b.Minus(t.d)) + SquaredLength(t.c.Minus(t.d))
  }

  function Square(x: real): real {
    x * x
  }

  function Cube(x: real): real {
    x * x * x
  }

  /** `root` is the value of `pow(3 * volume, 2 / 3)`. */
  predicate IsPower(t: Tetra, root: real) {
    root >= 0.0 && Cube(root) == 9.0 * Square(TetraVolume(t))
  }

  function TetraMeanRatio(t: Tetra, root: real): real
    requires IsPower(t, root)
  {
    if EdgeSquared(t) > 0.0 then 12.0 * root / EdgeSquared(t) else 0.0
  }

  // ---------------------------------------------------------------- inequalities

  lemma ZeroFactor(x: real, y: real)
    requires x > 0.0 && x * y == 0.0
    ensures y == 0.0
  {
  }

  lemma SquareNonnegative(x: real)
    ensures x * x >= 0.0
    ensures x * x == 0.0 ==> x == 0.0
  {
    if x * x == 0.0 && x > 0.0 {
      ZeroFactor(x, x);
    }
    if x * x == 0.0 && x < 0.0 {
      ZeroFactor(-x, x);
    }
  }

  lemma ProductNonnegative(x: real, y: real)
    requires x >= 0.0 && y >= 0.0
    ensures x * y >= 0.0
    ensures x * y == 0.0 && x > 0.0 ==> y == 0.0
  {
  }

  lemma CubeMonotone(x: real, y: real)
    requires x >= 0.0 && y >= 0.0
    ensures x <= y <==> Cube(x) <= Cube(y)
    ensures x == y <==> Cube(x) == Cube(y)
  {
  }

  lemma MeanIdentity(x: real, y: real, z: real)
    ensures 2.0 * (Cube(x + y + z) - 27.0 * x * y * z)
         == (x + y + z) * ((x - y) * (x - y) + (y - z) * (y - z) + (z - x) * (z - x))
            + 6.0 * (x * ((y - z) * (y - z)) + y * ((z - x) * (z - x)) + z * ((x - y) * (x - y)))
  {
  }

  /** A sum of products of nonnegative numbers. */
  lemma GapNonnegative(x: real, y: real, z: real, u: real, v: real, w: real, gap: real)
    requires x >= 0.0 && y >= 0.0 && z >= 0.0 && u >= 0.0 && v >= 0.0 && w >= 0.0
    requires 2.0 * gap == (x + y + z) * (w + u + v) + 6.0 * (x * u + y * v + z * w)
    ensures gap >= 0.0
    ensures gap == 0.0 && x + y + z > 0.0 ==> u == v == w == 0.0
  {
    ProductNonnegative(x, u);
    ProductNonnegative(y, v);
    ProductNonnegative(z, w);
    ProductNonnegative(x + y + z, w + u + v);
  }

  /** The arithmetic mean is at least the geometric one, and equal to it only
      for equal numbers. */
  lemma MeanInequality(x: real, y: real, z: real)
    requires x >= 0.0 && y >= 0.0 && z >= 0.0
    ensures 27.0 * x * y * z <= Cube(x + y + z)
    ensures 27.0 * x * y * z == Cube(x + y + z) && x + y + z > 0.0 ==> x == y == z
  {
    MeanIdentity(x, y, z);
    SquareNonnegative(y - z);
    SquareNonnegative(z - x);
    SquareNonnegative(x - y);
    GapNonnegative(x, y, z, (y - z) * (y - z), (z - x) * (z - x), (x - y) * (x - y),
      Cube(x + y + z) - 27.0 * x * y * z);
  }

  /** Lagrange's identity. */
  lemma CrossLength(q: Vec3, r: Vec3)
    ensures SquaredLength(q.Cross(r)) == SquaredLength(q) * SquaredLength(r) - q.Dot(r) * q.Dot(r)
  {
  }

  lemma SquaredLengthNonnegative(v: Vec3)
    ensures SquaredLength(v) >= 0.0
    ensures SquaredLength(v) == 0.0 ==> v == Vec3(0.0, 0.0, 0.0)
  {
    SquareNonnegative(v.x);
    SquareNonnegative(v.y);
    SquareNonnegative(v.z);
  }

  lemma CauchySchwarz(p: Vec3, n: Vec3)
    ensures p.Dot(n) * p.Dot(n) <= SquaredLength(p) * SquaredLength(n)
  {
    CrossLength(p, n);
    SquaredLengthNonnegative(p.Cross(n));
  }

  /** A determinant is at most the volume of the box its rows would span if
      they were orthogonal. */
  lemma Hadamard(p: Vec3, q: Vec3, r: Vec3)
    ensures Determinant(p, q, r) * Determinant(p, q, r)
         <= SquaredLength(p) * (SquaredLength(q) * SquaredLength(r) - q.Dot(r) * q.Dot(r))
  {
    var n := q.Cross(r);
    MixedProduct(p, q, r);
    CauchySchwarz(p, n);
    CrossLength(q, r);
  }

  // ---------------------------------------------------------------- volume against edges

  /** Half the vectors between midpoints of opposite edges, doubled: three
      vectors whose sums are the edges. */
  function Halves(t: Tetra): (Vec3, Vec3, Vec3) {
    var u, v, w := t.b.Minus(t.a), t.c.Minus(t.a), t.d.Minus(t.a);
    (Vec3((v.x + w.x - u.x) / 2.0, (v.y + w.y - u.y) / 2.0, (v.z + w.z - u.z) / 2.0),
     Vec3((u.x + w.x - v.x) / 2.0, (u.y + w.y - v.y) / 2.0, (u.z + w.z - v.z) / 2.0),
     Vec3((u.x + v.x - w.x) / 2.0, (u.y + v.y - w.y) / 2.0, (u.z + v.z - w.z) / 2.0))
  }

  /** Squared lengths, pairwise products and determinant of the three halves. */
  datatype Box = Box(x: real, y: real, z: real, yz: real, zx: real, xy: real, det: real)

  function BoxOf(p: Vec3, q: Vec3, r: Vec3): Box {
    Box(SquaredLength(p), SquaredLength(q), SquaredLength(r), q.Dot(r), r.Dot(p), p.Dot(q), Determinant(p, q, r))
  }

  /** What holds of the numbers of any three vectors. */
  ghost predicate Realizable(o: Box) {
    && o.x >= 0.0 && o.y >= 0.0 && o.z >= 0.0
    && Square(o.det) <= o.x * (o.y * o.z - o.yz * o.yz)
    && Square(o.det) <= o.y * (o.z * o.x - o.zx * o.zx)
    && Square(o.det) <= o.z * (o.x * o.y - o.xy * o.xy)
  }

  lemma RotatedDeterminant(p: Vec3, q: Vec3, r: Vec3)
    ensures Determinant(q, r, p) == Determinant(p, q, r) == Determinant(r, p, q)
  {
  }

  lemma FirstBound(p: Vec3, q: Vec3, r: Vec3, o: Box)
    requires o == BoxOf(p, q, r)
    ensures Square(o.det) <= o.x * (o.y * o.z - o.yz * o.yz)
  {
    Hadamard(p, q, r);
  }

  lemma SecondBound(p: Vec3, q: Vec3, r: Vec3, o: Box)
    requires o == BoxOf(p, q, r)
    ensures Square(o.det) <= o.y * (o.z * o.x - o.zx * o.zx)
  {
    RotatedDeterminant(p, q, r);
    FirstBound(q, r, p, BoxOf(q, r, p));
  }

  lemma ThirdBound(p: Vec3, q: Vec3, r: Vec3, o: Box)
    requires o == BoxOf(p, q, r)
    ensures Square(o.det) <= o.z * (o.x * o.y - o.xy * o.xy)
  {
    RotatedDeterminant(p, q, r);
    FirstBound(r, p, q, BoxOf(r, p, q));
  }

  lemma LengthsNonnegative(p: Vec3, q: Vec3, r: Vec3, o: Box)
    requires o == BoxOf(p, q, r)
    ensures o.x >= 0.0 && o.y >= 0.0 && o.z >= 0.0
  {
    SquaredLengthNonnegative(p);
    SquaredLengthNonnegative(q);
    SquaredLengthNonnegative(r);
  }

  lemma BoxRealizable(p: Vec3, q: Vec3, r: Vec3, o: Box)
    requires o == BoxOf(p, q, r)
    ensures Realizable(o)
  {
    LengthsNonnegative(p, q, r, o);
    FirstBound(p, q, r, o);
    SecondBound(p, q, r, o);
    ThirdBound(p, q, r, o);
  }

  lemma OneBound(x: real, y: real, z: real, d: real, det2: real, cube: real)
    requires x >= 0.0 && y >= 0.0 && z >= 0.0 && det2 <= x * (y * z - d * d)
    requires 27.0 * x * y * z <= cube
    requires 27.0 * x * y * z == cube && x + y + z > 0.0 ==> x == y == z
    ensures 27.0 * det2 <= cube
    ensures 27.0 * det2 == cube && x + y + z > 0.0 ==> x == y == z && d == 0.0
  {
    SquareNonnegative(d);
    ProductNonnegative(x, d * d);
    assert x * (y * z - d * d) == x * y * z - x * (d * d);
  }

  lemma RotatedProduct(x: real, y: real, z: real)
    ensures 27.0 * y * z * x == 27.0 * x * y * z && 27.0 * z * x * y == 27.0 * x * y * z
  {
  }

  lemma ThreeBounds(x: real, y: real, z: real, yz: real, zx: real, xy: real, det2: real, cube: real)
    requires x >= 0.0 && y >= 0.0 && z >= 0.0
    requires det2 <= x * (y * z - yz * yz) && det2 <= y * (z * x - zx * zx) && det2 <= z * (x * y - xy * xy)
    requires 27.0 * x * y * z <= cube
    requires 27.0 * x * y * z == cube && x + y + z > 0.0 ==> x == y == z
    ensures 27.0 * det2 <= cube
    ensures 27.0 * det2 == cube && x + y + z > 0.0 ==> x == y == z && yz == zx == xy == 0.0
  {
    RotatedProduct(x, y, z);
    OneBound(x, y, z, yz, det2, cube);
    OneBound(y, z, x, zx, det2, cube);
    OneBound(z, x, y, xy, det2, cube);
  }

  lemma MeanBounds(x: real, y: real, z: real, yz: real, zx: real, xy: real, det2: real, cube: real)
    requires x >= 0.0 && y >= 0.0 && z >= 0.0 && cube == Cube(x + y + z)
    requires det2 <= x * (y * z - yz * yz) && det2 <= y * (z * x - zx * zx) && det2 <= z * (x * y - xy * xy)
    ensures 27.0 * det2 <= cube
    ensures 27.0 * det2 == cube && x + y + z > 0.0 ==> x == y == z && yz == zx == xy == 0.0
  {
    MeanInequality(x, y, z);
    ThreeBounds(x, y, z, yz, zx, xy, det2, cube);
  }

  /** Three vectors span at most a cube of the same total squared length, and
      exactly that only if they are equally long and orthogonal. */
  lemma CubeBound(o: Box)
    requires Realizable(o)
    ensures 27.0 * Square(o.det) <= Cube(o.x + o.y + o.z)
    ensures 27.0 * Square(o.det) == Cube(o.x + o.y + o.z) && o.x + o.y + o.z > 0.0 ==>
      o.x == o.y == o.z && o.yz == o.zx == o.xy == 0.0
  {
    MeanBounds(o.x, o.y, o.z, o.yz, o.zx, o.xy, Square(o.det), Cube(o.x + o.y + o.z));
  }

  predicate Regular(t: Tetra) {
    var l := SquaredLength(t.a.Minus(t.b));
    && SquaredLength(t.a.Minus(t.c)) == l && SquaredLength(t.a.Minus(t.d)) == l
    && SquaredLength(t.b.Minus(t.c)) == l && SquaredLength(t.b.Minus(t.d)) == l
    && SquaredLength(t.c.Minus(t.d)) == l
  }

  /** The squared edges are sums and differences of the halves'. */
  ghost predicate EdgesOf(t: Tetra, o: Box) {
    && SquaredLength(t.a.Minus(t.b)) == o.y + o.z + 2.0 * o.yz
    && SquaredLength(t.a.Minus(t.c)) == o.z + o.x + 2.0 * o.zx
    && SquaredLength(t.a.Minus(t.d)) == o.x + o.y + 2.0 * o.xy
    && SquaredLength(t.c.Minus(t.d)) == o.y + o.z - 2.0 * o.yz
    && SquaredLength(t.b.Minus(t.d)) == o.z + o.x - 2.0 * o.zx
    && SquaredLength(t.b.Minus(t.c)) == o.x + o.y - 2.0 * o.xy
  }

  lemma LengthOfSum(v: Vec3, q: Vec3, r: Vec3)
    requires v.x + q.x + r.x == 0.0 && v.y + q.y + r.y == 0.0 && v.z + q.z + r.z == 0.0
    ensures SquaredLength(v) == SquaredLength(q) + SquaredLength(r) + 2.0 * q.Dot(r)
  {
    SquareOfSum(v.x, q.x, r.x);
    SquareOfSum(v.y, q.y, r.y);
    SquareOfSum(v.z, q.z, r.z);
  }

  lemma LengthOfDifference(v: Vec3, q: Vec3, r: Vec3)
    requires v.x + q.x == r.x && v.y + q.y == r.y && v.z + q.z == r.z
    ensures SquaredLength(v) == SquaredLength(q) + SquaredLength(r) - 2.0 * q.Dot(r)
  {
    SquareOfDifference(v.x, q.x, r.x);
    SquareOfDifference(v.y, q.y, r.y);
    SquareOfDifference(v.z, q.z, r.z);
  }

  lemma SquareOfSum(v: real, q: real, r: real)
    requires v + q + r == 0.0
    ensures v * v == q * q + r * r + 2.0 * (q * r)
  {
    assert v == -(q + r);
    assert v * v == (q + r) * (q + r);
  }

  lemma SquareOfDifference(v: real, q: real, r: real)
    requires v + q == r
    ensures v * v == q * q + r * r - 2.0 * (q * r)
  {
    assert v == r - q;
    assert v * v == (r - q) * (r - q);
  }

  lemma DeterminantOfSums(p: Vec3, q: Vec3, r: Vec3)
    ensures Determinant(Sum(q, r), Sum(p, r), Sum(p, q)) == 2.0 * Determinant(p, q, r)
  {
  }

  function Sum(p: Vec3, q: Vec3): Vec3 {
    Vec3(p.x + q.x, p.y + q.y, p.z + q.z)
  }

  lemma HalvesAddUp(t: Tetra)
    ensures var (p, q, r) := Halves(t);
      t.b.Minus(t.a) == Sum(q, r) && t.c.Minus(t.a) == Sum(p, r) && t.d.Minus(t.a) == Sum(p, q)
  {
  }

  lemma HalvesGiveEdges(t: Tetra)
    ensures var (p, q, r) := Halves(t);
      EdgesOf(t, BoxOf(p, q, r)) && Signed6Volume(t) == 2.0 * BoxOf(p, q, r).det
  {
    var (p, q, r) := Halves(t);
    HalvesAddUp(t);
    LengthOfSum(t.a.Minus(t.b), q, r);
    LengthOfSum(t.a.Minus(t.c), r, p);
    LengthOfSum(t.a.Minus(t.d), p, q);
    LengthOfDifference(t.c.Minus(t.d), q, r);
    LengthOfDifference(t.b.Minus(t.d), p, r);
    LengthOfDifference(t.b.Minus(t.c), p, q);
    assert p.Dot(r) == r.Dot(p);
    DeterminantOfSums(p, q, r);
  }

  lemma MeasuredBox(t: Tetra) returns (o: Box)
    ensures Realizable(o) && EdgesOf(t, o) && Signed6Volume(t) == 2.0 * o.det
  {
    var (p, q, r) := Halves(t);
    o := BoxOf(p, q, r);
    BoxRealizable(p, q, r, o);
    HalvesGiveEdges(t);
  }

  // ---------------------------------------------------------------- the bound and when it is reached

  function Scaled(v: Vec3, k: real): Vec3 {
    Vec3(k * v.x, k * v.y, k * v.z)
  }

  const ORIGIN := Vec3(0.0, 0.0, 0.0)

  /** One component of the triple cross product; the others follow by rotation. */
  lemma TripleComponent(py: real, pz: real, qx: real, qy: real, qz: real, rx: real, ry: real, rz: real, k: real,
      m: real)
    requires k == ry * py + rz * pz && m == py * qy + pz * qz
    ensures py * (qx * ry - qy * rx) - pz * (qz * rx - qx * rz) == k * qx - m * rx
  {
    assert k * qx == ry * py * qx + rz * pz * qx;
    assert m * rx == py * qy * rx + pz * qz * rx;
  }

  lemma CrossComponent(px: real, py: real, pz: real, q: Vec3, r: Vec3)
    requires r.x * px + r.y * py + r.z * pz == 0.0 && px * q.x + py * q.y + pz * q.z == 0.0
    ensures py * (q.x * r.y - q.y * r.x) - pz * (q.z * r.x - q.x * r.z) == 0.0
  {
    var k, m := r.y * py + r.z * pz, py * q.y + pz * q.z;
    TripleComponent(py, pz, q.x, q.y, q.z, r.x, r.y, r.z, k, m);
    Cancels(k, m, px, q.x, r.x);
  }

  lemma Cancels(k: real, m: real, px: real, qx: real, rx: real)
    requires k == -(rx * px) && m == -(px * qx)
    ensures k * qx - m * rx == 0.0
  {
  }

  lemma OrthogonalCross(p: Vec3, q: Vec3, r: Vec3)
    requires r.Dot(p) == 0.0 && p.Dot(q) == 0.0
    ensures p.Cross(q.Cross(r)) == ORIGIN
  {
    CrossComponent(p.x, p.y, p.z, q, r);
    CrossComponent(p.y, p.z, p.x, Rotated(q), Rotated(r));
    CrossComponent(p.z, p.x, p.y, Rotated(Rotated(q)), Rotated(Rotated(r)));
  }

  function Rotated(v: Vec3): Vec3 {
    Vec3(v.y, v.z, v.x)
  }

  lemma CrossOfOrthogonal(q: Vec3, r: Vec3)
    requires q.Dot(r) == 0.0
    ensures SquaredLength(q.Cross(r)) == SquaredLength(q) * SquaredLength(r)
  {
    CrossLength(q, r);
    NoSquare(SquaredLength(q.Cross(r)), SquaredLength(q) * SquaredLength(r), q.Dot(r));
  }

  lemma NoSquare(a: real, b: real, d: real)
    requires a == b - d * d && d == 0.0
    ensures a == b
  {
  }

  /** Parallel vectors: the product of their squares is the square of their product. */
  lemma ParallelProduct(p: Vec3, n: Vec3, det: real, q: real, r: real)
    requires p.Cross(n) == ORIGIN && det == p.Dot(n) && SquaredLength(n) == q * r
    ensures det * det == SquaredLength(p) * (q * r)
  {
    CrossLength(p, n);
    assert SquaredLength(ORIGIN) == 0.0;
  }

  lemma MixedProduct(p: Vec3, q: Vec3, r: Vec3)
    ensures Determinant(p, q, r) == p.Dot(q.Cross(r))
  {
  }

  /** Orthogonal vectors span the whole box. */
  lemma OrthogonalDeterminant(p: Vec3, q: Vec3, r: Vec3)
    requires q.Dot(r) == 0.0 && r.Dot(p) == 0.0 && p.Dot(q) == 0.0
    ensures Determinant(p, q, r) * Determinant(p, q, r) == SquaredLength(p) * (SquaredLength(q) * SquaredLength(r))
  {
    OrthogonalCross(p, q, r);
    CrossOfOrthogonal(q, r);
    MixedProduct(p, q, r);
    ParallelProduct(p, q.Cross(r), Determinant(p, q, r), SquaredLength(q), SquaredLength(r));
  }

  /** Six equal edges leave nothing but three equal squares. */
  lemma EqualEdges(t: Tetra, o: Box)
    requires Regular(t) && EdgesOf(t, o)
    ensures o.x == o.y == o.z && o.yz == o.zx == o.xy == 0.0
  {
    var l := SquaredLength(t.a.Minus(t.b));
    EqualSums(o, l);
  }

  lemma EqualSums(o: Box, l: real)
    requires o.y + o.z + 2.0 * o.yz == l && o.z + o.x + 2.0 * o.zx == l && o.x + o.y + 2.0 * o.xy == l
    requires o.y + o.z - 2.0 * o.yz == l && o.z + o.x - 2.0 * o.zx == l && o.x + o.y - 2.0 * o.xy == l
    ensures o.x == o.y == o.z && o.yz == o.zx == o.xy == 0.0
  {
  }

  lemma CubeOfEqual(det: real, x: real, y: real, z: real)
    requires det * det == x * (y * z) && x == y == z
    ensures Square(det) == x * (x * x)
  {
  }

  lemma RegularBox(t: Tetra) returns (o: Box)
    requires Regular(t)
    ensures Realizable(o) && EdgesOf(t, o) && Signed6Volume(t) == 2.0 * o.det
    ensures o.x == o.y == o.z && Square(o.det) == o.x * (o.x * o.x)
  {
    var (p, q, r) := Halves(t);
    o := BoxOf(p, q, r);
    BoxRealizable(p, q, r, o);
    HalvesGiveEdges(t);
    EqualEdges(t, o);
    OrthogonalDeterminant(p, q, r);
    CubeOfEqual(o.det, o.x, o.y, o.z);
  }

  lemma AbsSquare(x: real, det: real)
    requires x == 2.0 * det
    ensures 9.0 * Square(Abs(x) / 6.0) == Square(det)
  {
  }

  lemma RescaledBound(edges: real, sum: real, det2: real, volume: real)
    requires edges == 4.0 * sum && 9.0 * Square(volume) == det2
    ensures 15552.0 * Square(volume) <= Cube(edges) <==> 27.0 * det2 <= Cube(sum)
    ensures 15552.0 * Square(volume) == Cube(edges) <==> 27.0 * det2 == Cube(sum)
  {
  }

  lemma RegularReaches(t: Tetra)
    requires Regular(t)
    ensures 15552.0 * Square(TetraVolume(t)) == Cube(EdgeSquared(t))
  {
    var o := RegularBox(t);
    AbsSquare(Signed6Volume(t), o.det);
    RescaledBound(EdgeSquared(t), 3.0 * o.x, Square(o.det), TetraVolume(t));
    assert Cube(3.0 * o.x) == 27.0 * (o.x * (o.x * o.x));
  }

  lemma BoxBound(o: Box, edges: real, volume6: real)
    requires Realizable(o) && edges == 4.0 * (o.x + o.y + o.z) && volume6 == 2.0 * o.det
    ensures edges >= 0.0
    ensures 15552.0 * Square(Abs(volume6) / 6.0) <= Cube(edges)
    ensures edges > 0.0 && 15552.0 * Square(Abs(volume6) / 6.0) == Cube(edges) ==>
      o.x == o.y == o.z && o.yz == o.zx == o.xy == 0.0
  {
    CubeBound(o);
    AbsSquare(volume6, o.det);
    RescaledBound(edges, o.x + o.y + o.z, Square(o.det), Abs(volume6) / 6.0);
  }

  /** The volume of a tetrahedron is bounded by its edges, and the bound is
      reached exactly by the regular ones. */
  lemma VolumeBound(t: Tetra)
    ensures EdgeSquared(t) >= 0.0
    ensures 15552.0 * Square(TetraVolume(t)) <= Cube(EdgeSquared(t))
    ensures EdgeSquared(t) > 0.0 ==> (15552.0 * Square(TetraVolume(t)) == Cube(EdgeSquared(t)) <==> Regular(t))
  {
    var o := MeasuredBox(t);
    BoxBound(o, EdgeSquared(t), Signed6Volume(t));
    if Regular(t) {
      RegularReaches(t);
    }
  }

  lemma RatioBounds(edges: real, volume: real, root: real)
    requires edges >= 0.0 && root >= 0.0 && Cube(root) == 9.0 * Square(volume)
    requires 15552.0 * Square(volume) <= Cube(edges)
    ensures 12.0 * root <= edges
    ensures 12.0 * root == edges <==> 15552.0 * Square(volume) == Cube(edges)
    ensures root == 0.0 <==> volume == 0.0
  {
    CubeMonotone(12.0 * root, edges);
    assert Cube(12.0 * root) == 1728.0 * Cube(root);
    CubeMonotone(0.0, root);
    SquareNonnegative(volume);
  }

  lemma Quotient(n: real, d: real)
    requires d > 0.0 && 0.0 <= n <= d
    ensures 0.0 <= n / d <= 1.0
    ensures n / d == 0.0 <==> n == 0.0
    ensures n / d == 1.0 <==> n == d
  {
  }

  /** The mean ratio lies between 0 and 1; it is 0 exactly for flat tetrahedra
      and 1 exactly for regular ones. */
  lemma MeanRatioBounds(t: Tetra, root: real)
    requires IsPower(t, root)
    ensures 0.0 <= TetraMeanRatio(t, root) <= 1.0
    ensures TetraMeanRatio(t, root) == 0.0 <==> TetraVolume(t) == 0.0
    ensures TetraMeanRatio(t, root) == 1.0 <==> EdgeSquared(t) > 0.0 && Regular(t)
  {
    VolumeBound(t);
    RatioBounds(EdgeSquared(t), TetraVolume(t), root);
    if EdgeSquared(t) > 0.0 {
      Quotient(12.0 * root, EdgeSquared(t));
    }
  }
}
