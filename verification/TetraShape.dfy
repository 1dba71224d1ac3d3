/** What fixes determinants, volumes and mean ratios: the laws only they obey, and
    how they change when a tetrahedron is moved or scaled. */
module TetraShape {
  import opened FemModel
  import opened TetraGeometry

  // ---------------------------------------------------------------- which value lies between

  lemma CubeOfProduct(x: real, y: real)
    ensures Cube(x * y) == Cube(x) * Cube(y)
  {
  }

  lemma TimesDivisor(n: real, d: real)
    requires d > 0.0
    ensures n / d * d == n
  {
  }

  lemma RatioExactly(edges: real, squaredVolume: real, root: real, ours: real, ratio: real)
    requires edges > 0.0 && root >= 0.0 && ratio >= 0.0 && Cube(root) == 9.0 * squaredVolume
    requires ours * edges == 12.0 * root
    ensures ratio == ours <==> Cube(ratio * edges) == 15552.0 * squaredVolume
  {
    var product, twelve := ratio * edges, 12.0 * root;
    CubeOfTwelve(root);
    ProductNonnegative(ratio, edges);
    CubeMonotone(product, twelve);
    if product == twelve {
      SameFactor(ratio, ours, edges);
    }
  }

  /** The mean ratio times the squared edges, cubed, is 15552 squared volumes: no
      other number will do. */
  lemma MeanRatioExactly(t: Tetra, root: real, ratio: real)
    requires IsPower(t, root) && EdgeSquared(t) > 0.0 && ratio >= 0.0
    ensures ratio == TetraMeanRatio(t, root) <==>
      Cube(ratio * EdgeSquared(t)) == 15552.0 * Square(TetraVolume(t))
  {
    TimesDivisor(12.0 * root, EdgeSquared(t));
    RatioExactly(EdgeSquared(t), Square(TetraVolume(t)), root, TetraMeanRatio(t, root), ratio);
  }

  lemma CubeOfTwelve(root: real)
    ensures Cube(12.0 * root) == 1728.0 * Cube(root)
  {
  }

  lemma SameFactor(x: real, y: real, d: real)
    requires d > 0.0 && x * d == y * d
    ensures x == y
  {
    assert (x - y) * d == 0.0;
    if x != y {
      ZeroFactor(d, x - y);
    }
  }

  // ---------------------------------------------------------------- what fixes determinants and volumes

  const UNIT_X := Vec3(1.0, 0.0, 0.0)
  const UNIT_Y := Vec3(0.0, 1.0, 0.0)
  const UNIT_Z := Vec3(0.0, 0.0, 1.0)

  /** Linear in the first column, changed in sign by an exchange, and one on the
      unit vectors: there is one such function. */
  lemma DeterminantLaws(p: Vec3, q: Vec3, r: Vec3, u: Vec3, k: real)
    ensures Determinant(Sum(Scaled(p, k), u), q, r) == k * Determinant(p, q, r) + Determinant(u, q, r)
    ensures Determinant(q, p, r) == -Determinant(p, q, r) && Determinant(p, r, q) == -Determinant(p, q, r)
    ensures Determinant(UNIT_X, UNIT_Y, UNIT_Z) == 1.0
  {
    ExchangedColumns(p, q, r);
    LinearColumn(p, q, r, u, k);
  }

  lemma ExchangedColumns(p: Vec3, q: Vec3, r: Vec3)
    ensures Determinant(q, p, r) == -Determinant(p, q, r) && Determinant(p, r, q) == -Determinant(p, q, r)
  {
  }

  lemma MinorTerm(p: real, u: real, k: real, minor: real)
    ensures (k * p + u) * minor == k * (p * minor) + u * minor
  {
  }

  lemma LinearTerms(px: real, py: real, pz: real, ux: real, uy: real, uz: real, k: real, mx: real, my: real, mz: real)
    ensures (k * px + ux) * mx + (k * py + uy) * my + (k * pz + uz) * mz ==
      k * (px * mx + py * my + pz * mz) + (ux * mx + uy * my + uz * mz)
  {
    MinorTerm(px, ux, k, mx);
    MinorTerm(py, uy, k, my);
    MinorTerm(pz, uz, k, mz);
  }

  lemma LinearColumn(p: Vec3, q: Vec3, r: Vec3, u: Vec3, k: real)
    ensures Determinant(Sum(Scaled(p, k), u), q, r) == k * Determinant(p, q, r) + Determinant(u, q, r)
  {
    var n, moved := q.Cross(r), Sum(Scaled(p, k), u);
    MixedProduct(p, q, r);
    MixedProduct(u, q, r);
    MixedProduct(moved, q, r);
    LinearTerms(p.x, p.y, p.z, u.x, u.y, u.z, k, n.x, n.y, n.z);
  }

  // ---------------------------------------------------------------- moved and scaled tetrahedra

  /** Scaled by `k` and moved so that the origin lands on `o`. */
  function Placed(v: Vec3, k: real, o: Vec3): Vec3 {
    Sum(Scaled(v, k), o)
  }

  function PlacedTetra(t: Tetra, k: real, o: Vec3): Tetra {
    Tetra(Placed(t.a, k, o), Placed(t.b, k, o), Placed(t.c, k, o), Placed(t.d, k, o))
  }

  lemma PlacedDifference(p: Vec3, q: Vec3, k: real, o: Vec3)
    ensures Placed(p, k, o).Minus(Placed(q, k, o)) == Scaled(p.Minus(q), k)
  {
  }

  lemma ScaledLength(v: Vec3, k: real)
    ensures SquaredLength(Scaled(v, k)) == Square(k) * SquaredLength(v)
  {
    ScaledSquare(v.x, k);
    ScaledSquare(v.y, k);
    ScaledSquare(v.z, k);
    SumOfThree(Square(k), Square(v.x), Square(v.y), Square(v.z));
  }

  lemma ScaledSquare(x: real, k: real)
    ensures Square(k * x) == Square(k) * Square(x)
  {
  }

  lemma SumOfThree(k: real, x: real, y: real, z: real)
    ensures k * x + k * y + k * z == k * (x + y + z)
  {
  }

  lemma SumOfSix(k: real, a: real, b: real, c: real, d: real, e: real, f: real)
    ensures k * a + k * b + k * c + k * d + k * e + k * f == k * (a + b + c + d + e + f)
  {
  }

  /** `after` is `before` times the factor. */
  ghost predicate Grown(after: real, factor: real, before: real) {
    after == factor * before
  }

  lemma PlacedEdge(p: Vec3, q: Vec3, k: real, o: Vec3)
    ensures Grown(SquaredLength(Placed(p, k, o).Minus(Placed(q, k, o))), Square(k), SquaredLength(p.Minus(q)))
  {
    PlacedDifference(p, q, k, o);
    ScaledLength(p.Minus(q), k);
  }

  /** The squared edges, each known by a number. */
  ghost predicate HasEdges(t: Tetra, ab: real, ac: real, ad: real, bc: real, bd: real, cd: real) {
    && SquaredLength(t.a.Minus(t.b)) == ab && SquaredLength(t.a.Minus(t.c)) == ac
    && SquaredLength(t.a.Minus(t.d)) == ad && SquaredLength(t.b.Minus(t.c)) == bc
    && SquaredLength(t.b.Minus(t.d)) == bd && SquaredLength(t.c.Minus(t.d)) == cd
  }

  lemma EdgesGrow(t: Tetra, u: Tetra, factor: real, ab: real, ac: real, ad: real, bc: real, bd: real, cd: real,
      ab': real, ac': real, ad': real, bc': real, bd': real, cd': real)
    requires HasEdges(t, ab, ac, ad, bc, bd, cd) && HasEdges(u, ab', ac', ad', bc', bd', cd')
    requires Grown(ab', factor, ab) && Grown(ac', factor, ac) && Grown(ad', factor, ad)
    requires Grown(bc', factor, bc) && Grown(bd', factor, bd) && Grown(cd', factor, cd)
    ensures Grown(EdgeSquared(u), factor, EdgeSquared(t))
  {
    SumOfSix(factor, ab, ac, ad, bc, bd, cd);
    assert EdgeSquared(t) == ab + ac + ad + bc + bd + cd;
    assert EdgeSquared(u) == ab' + ac' + ad' + bc' + bd' + cd';
  }

  lemma PlacedEdges(t: Tetra, k: real, o: Vec3)
    ensures Grown(EdgeSquared(PlacedTetra(t, k, o)), Square(k), EdgeSquared(t))
  {
    var u := PlacedTetra(t, k, o);
    PlacedEdge(t.a, t.b, k, o);
    PlacedEdge(t.a, t.c, k, o);
    PlacedEdge(t.a, t.d, k, o);
    PlacedEdge(t.b, t.c, k, o);
    PlacedEdge(t.b, t.d, k, o);
    PlacedEdge(t.c, t.d, k, o);
    EdgesGrow(t, u, Square(k),
      SquaredLength(t.a.Minus(t.b)), SquaredLength(t.a.Minus(t.c)), SquaredLength(t.a.Minus(t.d)),
      SquaredLength(t.b.Minus(t.c)), SquaredLength(t.b.Minus(t.d)), SquaredLength(t.c.Minus(t.d)),
      SquaredLength(u.a.Minus(u.b)), SquaredLength(u.a.Minus(u.c)), SquaredLength(u.a.Minus(u.d)),
      SquaredLength(u.b.Minus(u.c)), SquaredLength(u.b.Minus(u.d)), SquaredLength(u.c.Minus(u.d)));
  }

  lemma ScaledFirst(p: Vec3, q: Vec3, r: Vec3, k: real)
    ensures Grown(Determinant(Scaled(p, k), q, r), k, Determinant(p, q, r))
  {
    LinearColumn(p, q, r, ORIGIN, k);
    assert Sum(Scaled(p, k), ORIGIN) == Scaled(p, k);
    assert Determinant(ORIGIN, q, r) == 0.0;
  }

  lemma ScaledColumns(p: Vec3, q: Vec3, r: Vec3, k: real)
    ensures Grown(Determinant(Scaled(p, k), Scaled(q, k), Scaled(r, k)), Cube(k), Determinant(p, q, r))
  {
    var u, v, w := Scaled(p, k), Scaled(q, k), Scaled(r, k);
    ScaledFirst(p, v, w, k);
    RotatedDeterminant(p, v, w);
    ScaledFirst(q, w, p, k);
    RotatedDeterminant(q, w, p);
    ScaledFirst(r, p, q, k);
    RotatedDeterminant(r, p, q);
    ThreeFactors(k, Determinant(p, q, r), Determinant(p, q, w), Determinant(p, v, w), Determinant(u, v, w));
  }

  lemma ThreeFactors(k: real, d: real, d1: real, d2: real, d3: real)
    requires Grown(d1, k, d) && Grown(d2, k, d1) && Grown(d3, k, d2)
    ensures Grown(d3, Cube(k), d)
  {
  }

  lemma PlacedVolume(t: Tetra, k: real, o: Vec3)
    ensures Grown(Signed6Volume(PlacedTetra(t, k, o)), Cube(k), Signed6Volume(t))
  {
    PlacedDifference(t.b, t.a, k, o);
    PlacedDifference(t.c, t.a, k, o);
    PlacedDifference(t.d, t.a, k, o);
    ScaledColumns(t.b.Minus(t.a), t.c.Minus(t.a), t.d.Minus(t.a), k);
  }

  lemma SquaredVolumeGrows(v: real, v': real, k: real)
    requires Grown(v', Cube(k), v)
    ensures Grown(Square(Abs(v') / 6.0), Cube(Square(k)), Square(Abs(v) / 6.0))
  {
    SixthSquared(v);
    SixthSquared(v');
    ScaledSquare(v, Cube(k));
    CubeOfSquare(k);
    ThirtySixth(Cube(Square(k)), Square(v));
  }

  lemma SixthSquared(x: real)
    ensures Square(Abs(x) / 6.0) == Square(x) / 36.0
  {
  }

  lemma ThirtySixth(k: real, x: real)
    ensures k * x / 36.0 == k * (x / 36.0)
  {
  }

  lemma CubeOfSquare(k: real)
    ensures Square(Cube(k)) == Cube(Square(k))
  {
  }

  lemma PlacedProduct(ratio: real, k: real, edges: real, product: real)
    requires product == ratio * edges
    ensures Cube(ratio * (k * edges)) == Cube(k) * Cube(product)
  {
    assert ratio * (k * edges) == k * product;
    CubeOfProduct(k, product);
  }

  lemma SameFactorOut(k: real, x: real, y: real)
    requires x == 15552.0 * y
    ensures k * x == 15552.0 * (k * y)
  {
  }

  /** A ratio between edges and volume, as the exact law has it. */
  ghost predicate Fits(ratio: real, edges: real, squaredVolume: real) {
    Cube(ratio * edges) == 15552.0 * squaredVolume
  }

  /** The ratio that fits the edges and the volume also fits them scaled. */
  lemma FitsScaled(ratio: real, k2: real, edges: real, squaredVolume: real, scaledEdges: real, scaledVolume: real)
    requires Fits(ratio, edges, squaredVolume)
    requires Grown(scaledEdges, k2, edges) && Grown(scaledVolume, Cube(k2), squaredVolume)
    ensures Fits(ratio, scaledEdges, scaledVolume)
  {
    PlacedProduct(ratio, k2, edges, ratio * edges);
    assert ratio * scaledEdges == ratio * (k2 * edges);
    SameFactorOut(Cube(k2), Cube(ratio * edges), squaredVolume);
  }

  lemma PositiveProduct(x: real, y: real)
    requires x > 0.0 && y > 0.0
    ensures x * y > 0.0
  {
  }

  lemma SquarePositive(k: real)
    requires k != 0.0
    ensures Square(k) > 0.0
  {
    SquareNonnegative(k);
  }

  lemma FitsExactly(t: Tetra, root: real, ratio: real)
    requires IsPower(t, root) && EdgeSquared(t) > 0.0 && ratio >= 0.0
    ensures ratio == TetraMeanRatio(t, root) <==> Fits(ratio, EdgeSquared(t), Square(TetraVolume(t)))
  {
    MeanRatioExactly(t, root, ratio);
  }

  lemma EdgesStayPositive(t: Tetra, k: real, o: Vec3)
    requires k != 0.0 && EdgeSquared(t) > 0.0
    ensures EdgeSquared(PlacedTetra(t, k, o)) > 0.0
  {
    PlacedEdges(t, k, o);
    SquarePositive(k);
    GrowsPositive(EdgeSquared(PlacedTetra(t, k, o)), Square(k), EdgeSquared(t));
  }

  lemma GrowsPositive(after: real, factor: real, before: real)
    requires Grown(after, factor, before) && factor > 0.0 && before > 0.0
    ensures after > 0.0
  {
    PositiveProduct(factor, before);
  }

  /** Neither where a tetrahedron lies nor how large it is changes its mean ratio. */
  lemma ShapeAlone(t: Tetra, root: real, k: real, o: Vec3, other: real)
    requires IsPower(t, root) && IsPower(PlacedTetra(t, k, o), other) && k != 0.0 && EdgeSquared(t) > 0.0
    ensures TetraMeanRatio(PlacedTetra(t, k, o), other) == TetraMeanRatio(t, root)
  {
    var ratio, placed := TetraMeanRatio(t, root), PlacedTetra(t, k, o);
    MeanRatioBounds(t, root);
    FitsExactly(t, root, ratio);
    PlacedEdges(t, k, o);
    PlacedVolume(t, k, o);
    SquaredVolumeGrows(Signed6Volume(t), Signed6Volume(placed), k);
    FitsScaled(ratio, Square(k), EdgeSquared(t), Square(TetraVolume(t)), EdgeSquared(placed),
      Square(TetraVolume(placed)));
    EdgesStayPositive(t, k, o);
    FitsExactly(placed, other, ratio);
  }
}
