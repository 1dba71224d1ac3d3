/** Which functions the ten shape functions are, which gradients and points go with
    them, and what the four samples are worth. */
module ShapeLaws {
  import opened Wrappers
  import opened FemModel
  import opened TetraGeometry
  import opened QuadraticTetra
  import opened VolumeIntegration

  /** Where the ten nodes are: corners, then the middles of edges 0-1, 1-2, 2-0,
      0-3, 2-3 and 1-3. */
  const NODE_POINTS: seq<seq<real>> := [
    [1.0, 0.0, 0.0, 0.0], [0.0, 1.0, 0.0, 0.0], [0.0, 0.0, 1.0, 0.0], [0.0, 0.0, 0.0, 1.0],
    [0.5, 0.5, 0.0, 0.0], [0.0, 0.5, 0.5, 0.0], [0.5, 0.0, 0.5, 0.0],
    [0.5, 0.0, 0.0, 0.5], [0.0, 0.0, 0.5, 0.5], [0.0, 0.5, 0.0, 0.5]]

  // ---------------------------------------------------------------- one at its own node, zero at the others

  lemma CornerValue(x: real)
    requires x == 0.0 || x == 0.5 || x == 1.0
    ensures x * (2.0 * x - 1.0) == if x == 1.0 then 1.0 else 0.0
  {
  }

  lemma EdgeValue(x: real, y: real)
    requires x == 0.0 || x == 0.5 || x == 1.0
    requires y == 0.0 || (y == 0.5 && x != 1.0) || (y == 1.0 && x == 0.0)
    ensures 4.0 * x * y == if x == 0.5 && y == 0.5 then 1.0 else 0.0
  {
  }

  lemma CornerPoints(corner: nat, k: nat)
    requires corner < 4 && k < 10
    ensures |NODE_POINTS[k]| == 4
    ensures var x := NODE_POINTS[k][corner];
      (x == 0.0 || x == 0.5 || x == 1.0) && (x == 1.0 <==> k == corner)
  {
  }

  lemma EdgePoints(e: nat, k: nat)
    requires e < 6 && k < 10
    ensures |NODE_POINTS[k]| == 4
    ensures var x, y := NODE_POINTS[k][EDGES[e].0], NODE_POINTS[k][EDGES[e].1];
      && (x == 0.0 || x == 0.5 || x == 1.0)
      && (y == 0.0 || (y == 0.5 && x != 1.0) || (y == 1.0 && x == 0.0))
      && (x == 0.5 && y == 0.5 <==> k == 4 + e)
  {
  }

  /** Each shape function is one at its own node and zero at the other nine. */
  lemma Kronecker(node: nat, k: nat)
    requires node < 10 && k < 10
    ensures |NODE_POINTS[k]| == 4
    ensures ShapeFunction(NODE_POINTS[k], node) == if node == k then 1.0 else 0.0
  {
    if node < 4 {
      CornerPoints(node, k);
      CornerValue(NODE_POINTS[k][node]);
    } else {
      EdgePoints(node - 4, k);
      EdgeValue(NODE_POINTS[k][EDGES[node - 4].0], NODE_POINTS[k][EDGES[node - 4].1]);
    }
  }

  // ---------------------------------------------------------------- quadratic fields

  /** A quadratic field; on points whose coordinates add up to one, constants and
      linear fields are among them. */
  function Quadratic(c: seq<real>, l: seq<real>): real
    requires |c| == 10 && |l| == 4
  {
    c[0] * (l[0] * l[0]) + c[1] * (l[1] * l[1]) + c[2] * (l[2] * l[2]) + c[3] * (l[3] * l[3])
    + c[4] * (l[0] * l[1]) + c[5] * (l[1] * l[2]) + c[6] * (l[2] * l[0])
    + c[7] * (l[0] * l[3]) + c[8] * (l[2] * l[3]) + c[9] * (l[1] * l[3])
  }

  function NodeValues(c: seq<real>): (v: seq<real>)
    requires |c| == 10
    ensures |v| == 10
  {
    seq(10, k requires 0 <= k < 10 => (CornerPoints(0, k); Quadratic(c, NODE_POINTS[k])))
  }

  lemma CornerNodeValues(c: seq<real>)
    requires |c| == 10
    ensures var v := NodeValues(c); v[0] == c[0] && v[1] == c[1] && v[2] == c[2] && v[3] == c[3]
  {
  }

  lemma EdgeNodeValues(c: seq<real>)
    requires |c| == 10
    ensures var v := NodeValues(c);
      && v[4] == (c[0] + c[1] + c[4]) / 4.0 && v[5] == (c[1] + c[2] + c[5]) / 4.0
      && v[6] == (c[2] + c[0] + c[6]) / 4.0 && v[7] == (c[0] + c[3] + c[7]) / 4.0
      && v[8] == (c[2] + c[3] + c[8]) / 4.0 && v[9] == (c[1] + c[3] + c[9]) / 4.0
  {
  }

  lemma SumOfTen(v: seq<real>, w: seq<real>)
    requires |v| == |w| == 10
    ensures WeightedSum(v, w, 10) ==
      v[0] * w[0] + v[1] * w[1] + v[2] * w[2] + v[3] * w[3] + v[4] * w[4]
      + v[5] * w[5] + v[6] * w[6] + v[7] * w[7] + v[8] * w[8] + v[9] * w[9]
  {
    assert WeightedSum(v, w, 2) == v[0] * w[0] + v[1] * w[1];
    assert WeightedSum(v, w, 4) == WeightedSum(v, w, 2) + v[2] * w[2] + v[3] * w[3];
    assert WeightedSum(v, w, 6) == WeightedSum(v, w, 4) + v[4] * w[4] + v[5] * w[5];
    assert WeightedSum(v, w, 8) == WeightedSum(v, w, 6) + v[6] * w[6] + v[7] * w[7];
    assert WeightedSum(v, w, 10) == WeightedSum(v, w, 8) + v[8] * w[8] + v[9] * w[9];
  }

  ghost predicate IsProduct(p: real, x: real, y: real) {
    p == x * y
  }

  lemma Turned(p: real, x: real, y: real)
    requires IsProduct(p, x, y)
    ensures IsProduct(p, y, x)
  {
  }

  /** The shape functions at a corner and along its three edges make up a square. */
  lemma SquareShare(n: real, a: real, b: real, c: real, x: real, y: real, z: real, w: real)
    requires IsProduct(n, x, 2.0 * x - 1.0) && IsProduct(a, x, y) && IsProduct(b, x, z) && IsProduct(c, x, w)
    requires x + y + z + w == 1.0
    ensures IsProduct(n + a + b + c, x, x)
  {
    assert x * (2.0 * x - 1.0) + x * y + x * z + x * w == x * (2.0 * x - 1.0 + y + z + w);
  }

  lemma EdgeShare(l: seq<real>, e: nat)
    requires |l| == 4 && e < 6
    ensures IsProduct(ShapeFunctions(l)[4 + e] / 4.0, l[EDGES[e].0], l[EDGES[e].1])
  {
    Quarter(l[EDGES[e].0], l[EDGES[e].1]);
  }

  lemma Quarter(x: real, y: real)
    ensures (4.0 * x * y) / 4.0 == x * y
  {
  }

  lemma CornerShare(l: seq<real>, corner: nat)
    requires |l| == 4 && corner < 4
    ensures IsProduct(ShapeFunctions(l)[corner], l[corner], 2.0 * l[corner] - 1.0)
  {
  }

  /** How the ten functions make up the squares and products of the coordinates. */
  ghost predicate MakesUp(n: seq<real>, l: seq<real>) {
    && |n| == 10 && |l| == 4
    && IsProduct(n[0] + n[4] / 4.0 + n[6] / 4.0 + n[7] / 4.0, l[0], l[0])
    && IsProduct(n[1] + n[4] / 4.0 + n[5] / 4.0 + n[9] / 4.0, l[1], l[1])
    && IsProduct(n[2] + n[5] / 4.0 + n[6] / 4.0 + n[8] / 4.0, l[2], l[2])
    && IsProduct(n[3] + n[7] / 4.0 + n[8] / 4.0 + n[9] / 4.0, l[3], l[3])
    && IsProduct(n[4] / 4.0, l[0], l[1]) && IsProduct(n[5] / 4.0, l[1], l[2]) && IsProduct(n[6] / 4.0, l[2], l[0])
    && IsProduct(n[7] / 4.0, l[0], l[3]) && IsProduct(n[8] / 4.0, l[2], l[3]) && IsProduct(n[9] / 4.0, l[1], l[3])
  }

  lemma ShapesMakeUp(l: seq<real>)
    requires |l| == 4 && l[0] + l[1] + l[2] + l[3] == 1.0
    ensures MakesUp(ShapeFunctions(l), l)
  {
    var n := ShapeFunctions(l);
    EdgeShare(l, 0);
    EdgeShare(l, 1);
    EdgeShare(l, 2);
    EdgeShare(l, 3);
    EdgeShare(l, 4);
    EdgeShare(l, 5);
    CornerShare(l, 0);
    CornerShare(l, 1);
    CornerShare(l, 2);
    CornerShare(l, 3);
    Turned(n[4] / 4.0, l[0], l[1]);
    Turned(n[5] / 4.0, l[1], l[2]);
    Turned(n[6] / 4.0, l[2], l[0]);
    Turned(n[7] / 4.0, l[0], l[3]);
    Turned(n[8] / 4.0, l[2], l[3]);
    Turned(n[9] / 4.0, l[1], l[3]);
    SquareShare(n[0], n[4] / 4.0, n[6] / 4.0, n[7] / 4.0, l[0], l[1], l[2], l[3]);
    SquareShare(n[1], n[4] / 4.0, n[5] / 4.0, n[9] / 4.0, l[1], l[0], l[2], l[3]);
    SquareShare(n[2], n[5] / 4.0, n[6] / 4.0, n[8] / 4.0, l[2], l[1], l[0], l[3]);
    SquareShare(n[3], n[7] / 4.0, n[8] / 4.0, n[9] / 4.0, l[3], l[0], l[2], l[1]);
  }

  lemma SplitQuarter(a: real, b: real, c: real, n: real)
    ensures (a + b + c) / 4.0 * n == a * (n / 4.0) + b * (n / 4.0) + c * (n / 4.0)
  {
  }

  lemma SplitFour(c: real, a: real, p: real, q: real, r: real, whole: real)
    requires a + p + q + r == whole
    ensures c * a + c * p + c * q + c * r == c * whole
  {
  }

  lemma Regrouped(c: seq<real>, v: seq<real>, n: seq<real>, l: seq<real>)
    requires |c| == |v| == 10 && MakesUp(n, l)
    requires v[0] == c[0] && v[1] == c[1] && v[2] == c[2] && v[3] == c[3]
    requires v[4] == (c[0] + c[1] + c[4]) / 4.0 && v[5] == (c[1] + c[2] + c[5]) / 4.0
    requires v[6] == (c[2] + c[0] + c[6]) / 4.0 && v[7] == (c[0] + c[3] + c[7]) / 4.0
    requires v[8] == (c[2] + c[3] + c[8]) / 4.0 && v[9] == (c[1] + c[3] + c[9]) / 4.0
    ensures WeightedSum(v, n, 10) == Quadratic(c, l)
  {
    SumOfTen(v, n);
    SplitQuarter(c[0], c[1], c[4], n[4]);
    SplitQuarter(c[1], c[2], c[5], n[5]);
    SplitQuarter(c[2], c[0], c[6], n[6]);
    SplitQuarter(c[0], c[3], c[7], n[7]);
    SplitQuarter(c[2], c[3], c[8], n[8]);
    SplitQuarter(c[1], c[3], c[9], n[9]);
    SplitFour(c[0], n[0], n[4] / 4.0, n[6] / 4.0, n[7] / 4.0, l[0] * l[0]);
    SplitFour(c[1], n[1], n[4] / 4.0, n[5] / 4.0, n[9] / 4.0, l[1] * l[1]);
    SplitFour(c[2], n[2], n[5] / 4.0, n[6] / 4.0, n[8] / 4.0, l[2] * l[2]);
    SplitFour(c[3], n[3], n[7] / 4.0, n[8] / 4.0, n[9] / 4.0, l[3] * l[3]);
  }

  /** Every quadratic field is interpolated exactly from its values at the ten nodes. */
  lemma QuadraticCompleteness(c: seq<real>, l: seq<real>)
    requires |c| == 10 && |l| == 4 && l[0] + l[1] + l[2] + l[3] == 1.0
    ensures WeightedSum(NodeValues(c), ShapeFunctions(l), 10) == Quadratic(c, l)
  {
    CornerNodeValues(c);
    EdgeNodeValues(c);
    ShapesMakeUp(l);
    Regrouped(c, NodeValues(c), ShapeFunctions(l), l);
  }

  // ---------------------------------------------------------------- gradients are derivatives

  /** From `l` a distance `h` in direction `d`. */
  function Along(l: seq<real>, d: seq<real>, h: real): (r: seq<real>)
    requires |l| == |d| == 4
    ensures |r| == 4
  {
    seq(4, i requires 0 <= i < 4 => l[i] + h * d[i])
  }

  /** The value, its slope and its curvature at a distance. */
  ghost predicate Expands(f: real, start: real, slope: real, curve: real, h: real) {
    f == start + h * slope + h * h * curve
  }

  function SecondOrder(d: seq<real>, node: nat): real
    requires |d| == 4 && node < 10
  {
    if node < 4 then 2.0 * (d[node] * d[node]) else 4.0 * (d[EDGES[node - 4].0] * d[EDGES[node - 4].1])
  }

  function SecondOrders(d: seq<real>): (r: seq<real>)
    requires |d| == 4
    ensures |r| == 10
  {
    seq(10, node requires 0 <= node < 10 => SecondOrder(d, node))
  }

  lemma CornerExpands(x: real, d: real, h: real, y: real)
    requires y == x + h * d
    ensures Expands(y * (2.0 * y - 1.0), x * (2.0 * x - 1.0), (4.0 * x - 1.0) * d, 2.0 * (d * d), h)
  {
    assert y * (2.0 * y - 1.0) == (x + h * d) * (2.0 * (x + h * d) - 1.0);
  }

  lemma EdgeExpands(x: real, y: real, d: real, e: real, h: real, x': real, y': real)
    requires x' == x + h * d && y' == y + h * e
    ensures Expands(4.0 * x' * y', 4.0 * x * y, 4.0 * (d * y + x * e), 4.0 * (d * e), h)
  {
    assert x' * y' == (x + h * d) * (y + h * e);
    assert (x + h * d) * (y + h * e) == x * y + h * (d * y + x * e) + h * h * (d * e);
  }

  lemma CornerGradient(l: seq<real>, d: seq<real>, h: real, node: nat)
    requires |l| == |d| == 4 && node < 4
    ensures Expands(ShapeFunction(Along(l, d, h), node), ShapeFunction(l, node), GradientAt(l, d, node),
      SecondOrder(d, node), h)
  {
    CornerExpands(l[node], d[node], h, Along(l, d, h)[node]);
  }

  lemma EdgeGradient(l: seq<real>, d: seq<real>, h: real, node: nat)
    requires |l| == |d| == 4 && 4 <= node < 10
    ensures Expands(ShapeFunction(Along(l, d, h), node), ShapeFunction(l, node), GradientAt(l, d, node),
      SecondOrder(d, node), h)
  {
    var (i, j) := EDGES[node - 4];
    EdgeExpands(l[i], l[j], d[i], d[j], h, Along(l, d, h)[i], Along(l, d, h)[j]);
  }

  /** The listed gradient is the derivative: what is left beyond it is of second
      order and does not depend on the point. */
  lemma GradientIsDerivative(l: seq<real>, d: seq<real>, h: real, node: nat)
    requires |l| == |d| == 4 && node < 10
    ensures Expands(ShapeFunction(Along(l, d, h), node), ShapeFunction(l, node), Gradient(l, d)[node],
      SecondOrder(d, node), h)
  {
    if node < 4 {
      CornerGradient(l, d, h, node);
    } else {
      EdgeGradient(l, d, h, node);
    }
  }

  lemma ExpandsTerm(v: real, f: real, start: real, slope: real, curve: real, h: real,
      sf: real, ss: real, sl: real, sc: real)
    requires Expands(f, start, slope, curve, h) && Expands(sf, ss, sl, sc, h)
    ensures Expands(sf + v * f, ss + v * start, sl + v * slope, sc + v * curve, h)
  {
    assert v * f == v * start + h * (v * slope) + h * h * (v * curve);
  }

  lemma {:induction false} SumExpands(v: seq<real>, f: seq<real>, start: seq<real>, slope: seq<real>, curve: seq<real>,
      h: real, n: nat)
    requires n <= |v| == |f| == |start| == |slope| == |curve|
    requires forall k :: 0 <= k < |v| ==> Expands(f[k], start[k], slope[k], curve[k], h)
    ensures Expands(WeightedSum(v, f, n), WeightedSum(v, start, n), WeightedSum(v, slope, n),
      WeightedSum(v, curve, n), h)
  {
    if n > 0 {
      SumExpands(v, f, start, slope, curve, h, n - 1);
      ExpandsTerm(v[n - 1], f[n - 1], start[n - 1], slope[n - 1], curve[n - 1], h, WeightedSum(v, f, n - 1),
        WeightedSum(v, start, n - 1), WeightedSum(v, slope, n - 1), WeightedSum(v, curve, n - 1));
    }
  }

  /** Where the element maps a point of the reference element. */
  function Position(points: seq<Vec3>, l: seq<real>): Vec3
    requires |points| == 10 && |l| == 4
  {
    Interpolate(points, ShapeFunctions(l))
  }

  ghost predicate MovesBy(end: Vec3, start: Vec3, slope: Vec3, curve: Vec3, h: real) {
    && Expands(end.x, start.x, slope.x, curve.x, h)
    && Expands(end.y, start.y, slope.y, curve.y, h)
    && Expands(end.z, start.z, slope.z, curve.z, h)
  }

  lemma PositionExpands(points: seq<Vec3>, l: seq<real>, d: seq<real>, h: real)
    requires |points| == 10 && |l| == |d| == 4
    ensures MovesBy(Position(points, Along(l, d, h)), Position(points, l), Interpolate(points, Gradient(l, d)),
      Interpolate(points, SecondOrders(d)), h)
  {
    var f, start, slope, curve := ShapeFunctions(Along(l, d, h)), ShapeFunctions(l), Gradient(l, d), SecondOrders(d);
    forall k | 0 <= k < 10 ensures Expands(f[k], start[k], slope[k], curve[k], h) {
      GradientIsDerivative(l, d, h, k);
    }
    SumExpands(Xs(points), f, start, slope, curve, h, 10);
    SumExpands(Ys(points), f, start, slope, curve, h, 10);
    SumExpands(Zs(points), f, start, slope, curve, h, 10);
  }

  /** `v` is the derivative of the element's map at `l` in direction `d`. */
  ghost predicate IsDerivative(points: seq<Vec3>, l: seq<real>, d: seq<real>, v: Vec3)
    requires |points| == 10 && |l| == |d| == 4
  {
    exists curve :: ExpandsAlong(points, l, d, v, curve)
  }

  ghost predicate ExpandsAlong(points: seq<Vec3>, l: seq<real>, d: seq<real>, v: Vec3, curve: Vec3)
    requires |points| == 10 && |l| == |d| == 4
  {
    forall h: real :: MovesBy(Position(points, Along(l, d, h)), Position(points, l), v, curve, h)
  }

  lemma SlopeIsUnique(up: real, down: real, start: real, a: real, p: real, b: real, q: real)
    requires Expands(up, start, a, p, 1.0) && Expands(down, start, a, p, -1.0)
    requires Expands(up, start, b, q, 1.0) && Expands(down, start, b, q, -1.0)
    ensures a == b
  {
    assert up - down == 2.0 * a;
    assert up - down == 2.0 * b;
  }

  /** The column of the Jacobian is the derivative of the map, and there is no other. */
  lemma ColumnIsDerivative(points: seq<Vec3>, l: seq<real>, d: seq<real>, v: Vec3)
    requires |points| == 10 && |l| == |d| == 4
    ensures IsDerivative(points, l, d, v) <==> v == Interpolate(points, Gradient(l, d))
  {
    var ours, curve := Interpolate(points, Gradient(l, d)), Interpolate(points, SecondOrders(d));
    forall h: real ensures MovesBy(Position(points, Along(l, d, h)), Position(points, l), ours, curve, h) {
      PositionExpands(points, l, d, h);
    }
    assert ExpandsAlong(points, l, d, ours, curve);
    if IsDerivative(points, l, d, v) {
      var other :| ExpandsAlong(points, l, d, v, other);
      var up, down, start := Position(points, Along(l, d, 1.0)), Position(points, Along(l, d, -1.0)),
        Position(points, l);
      SlopeIsUnique(up.x, down.x, start.x, ours.x, curve.x, v.x, other.x);
      SlopeIsUnique(up.y, down.y, start.y, ours.y, curve.y, v.y, other.y);
      SlopeIsUnique(up.z, down.z, start.z, ours.z, curve.z, v.z, other.z);
    }
  }

  /** The Jacobian is the determinant of the three derivatives from corner 0 towards
      the other corners, curved element or not. */
  lemma JacobianOfDerivatives(points: seq<Vec3>, l: seq<real>, p: Vec3, q: Vec3, r: Vec3)
    requires |points| == 10 && |l| == 4
    requires IsDerivative(points, l, [-1.0, 1.0, 0.0, 0.0], p)
    requires IsDerivative(points, l, [-1.0, 0.0, 1.0, 0.0], q)
    requires IsDerivative(points, l, [-1.0, 0.0, 0.0, 1.0], r)
    ensures Jacobian(points, l) == Determinant(p, q, r)
  {
    ColumnIsDerivative(points, l, [-1.0, 1.0, 0.0, 0.0], p);
    ColumnIsDerivative(points, l, [-1.0, 0.0, 1.0, 0.0], q);
    ColumnIsDerivative(points, l, [-1.0, 0.0, 0.0, 1.0], r);
  }

  // ---------------------------------------------------------------- what the four samples are

  lemma SamplePoint(q: nat, i: nat)
    requires q < 4 && i < 4
    ensures |SAMPLE_POINTS[q]| == 4 && SAMPLE_POINTS[q][i] == if i == q then A else B
  {
  }

  lemma {:induction false} FirstSamples(jacobians: seq<real>, k: nat)
    requires k <= |jacobians| == 4 && SamplesFirst(jacobians, k).Success?
    ensures var samples := SamplesFirst(jacobians, k).value.samples;
      && |samples| == k
      && forall q :: 0 <= q < k ==>
        samples[q] == Sample(Abs(jacobians[q]) / 24.0, ShapeFunctions(SAMPLE_POINTS[q]))
  {
    if k > 0 {
      FirstSamples(jacobians, k - 1);
    }
  }

  /** Each sample has a twenty-fourth of the Jacobian at its point and the shape
      functions there. */
  lemma SampleAt(points: seq<Vec3>, samples: seq<Sample>, q: nat)
    requires QuadraticTetraVolumeSamples(points) == Success(samples) && q < 4
    ensures |points| == 10 && |samples| == 4
    ensures 24.0 * samples[q].volumeWeight == Abs(Jacobian(points, SAMPLE_POINTS[q]))
    ensures samples[q].shapeFunctions == ShapeFunctions(SAMPLE_POINTS[q])
  {
    FirstSamples(Jacobians(points), 4);
  }

  /** The first point at which the Jacobian is next to nothing or turns round. */
  ghost predicate FirstBad(jacobians: seq<real>, k: nat) {
    && k < |jacobians| == 4 && EquallyOriented(jacobians, k)
    && (Abs(jacobians[k]) <= 0.000000000000000001 || (k > 0 && Sign(jacobians[k]) != Sign(jacobians[0])))
  }

  /** Exactly when an element is refused as singular or inverted: what its first bad
      point says. */
  lemma RefusedExactly(points: seq<Vec3>, k: nat)
    requires |points| == 10 && FirstBad(Jacobians(points), k)
    ensures QuadraticTetraVolumeSamples(points) ==
      Failure(if Abs(Jacobian(points, SAMPLE_POINTS[k])) <= 0.000000000000000001 then Singular else Inverted)
  {
    RegularSamples(Jacobians(points), k);
    var before := SamplesFirst(Jacobians(points), k).value;
    RefusedSample(Jacobians(points), k, before);
  }

  lemma OrientationEnds(jacobians: seq<real>, k: nat)
    requires k < |jacobians| == 4 && EquallyOriented(jacobians, k) && !EquallyOriented(jacobians, k + 1)
    ensures FirstBad(jacobians, k)
  {
  }

  lemma {:induction false} FirstEnd(jacobians: seq<real>, k: nat) returns (first: nat)
    requires k <= |jacobians| == 4 && !EquallyOriented(jacobians, k)
    ensures first < k && EquallyOriented(jacobians, first) && !EquallyOriented(jacobians, first + 1)
  {
    if EquallyOriented(jacobians, k - 1) {
      first := k - 1;
    } else {
      first := FirstEnd(jacobians, k - 1);
    }
  }

  /** And every element of ten nodes that is refused has a first bad point. */
  lemma RefusedHasFirstBad(points: seq<Vec3>) returns (k: nat)
    requires |points| == 10 && QuadraticTetraVolumeSamples(points).Failure?
    ensures FirstBad(Jacobians(points), k)
  {
    AcceptedExactly(points);
    k := FirstEnd(Jacobians(points), 4);
    OrientationEnds(Jacobians(points), k);
  }

  // ---------------------------------------------------------------- what the four points integrate

  /** The mean of a quadratic field over the four points. */
  function PointMean(c: seq<real>): real
    requires |c| == 10
  {
    (Quadratic(c, SAMPLE_POINTS[0]) + Quadratic(c, SAMPLE_POINTS[1])
     + Quadratic(c, SAMPLE_POINTS[2]) + Quadratic(c, SAMPLE_POINTS[3])) / 4.0
  }

  /** Its mean over the tetrahedron: a tenth for each square, a twentieth for each product. */
  function FieldMean(c: seq<real>): real
    requires |c| == 10
  {
    (c[0] + c[1] + c[2] + c[3]) / 10.0 + (c[4] + c[5] + c[6] + c[7] + c[8] + c[9]) / 20.0
  }

  const SQUARES := (A * A + 3.0 * (B * B)) / 4.0
  const PRODUCTS := (2.0 * (A * B) + 2.0 * (B * B)) / 4.0

  /** At most `bound` away from zero. */
  ghost predicate Bounded(x: real, bound: real) {
    -bound <= x <= bound
  }

  lemma RoundedMeans()
    ensures Bounded(SQUARES - 0.1, 0.0000000000000001) && Bounded(PRODUCTS - 0.05, 0.0000000000000001)
  {
  }

  ghost predicate IsSamplePoint(q: nat) {
    q < 4 && |SAMPLE_POINTS[q]| == 4 && forall i :: 0 <= i < 4 ==> SAMPLE_POINTS[q][i] == if i == q then A else B
  }

  lemma AllSamplePoints()
    ensures IsSamplePoint(0) && IsSamplePoint(1) && IsSamplePoint(2) && IsSamplePoint(3)
  {
    forall q, i | 0 <= q < 4 && 0 <= i < 4
      ensures |SAMPLE_POINTS[q]| == 4 && SAMPLE_POINTS[q][i] == if i == q then A else B
    {
      SamplePoint(q, i);
    }
  }

  /** The mean as a mix of two means. */
  ghost predicate IsMix(mean: real, s: real, m: real, p: real, n: real) {
    mean == s * m + p * n
  }

  lemma PointMeanOf(c: seq<real>)
    requires |c| == 10
    ensures IsMix(PointMean(c), c[0] + c[1] + c[2] + c[3], SQUARES,
      c[4] + c[5] + c[6] + c[7] + c[8] + c[9], PRODUCTS)
  {
    AllSamplePoints();
  }

  lemma RoundedTerm(c: real, bound: real, mean: real, exact: real, error: real)
    requires Bounded(c, bound) && Bounded(mean - exact, error)
    ensures Bounded(c * mean - c * exact, bound * error)
  {
    var off := mean - exact;
    assert c * mean - c * exact == c * off;
    ProductNonnegative(bound - c, error + off);
    ProductNonnegative(bound + c, error - off);
    ProductNonnegative(bound - c, error - off);
    ProductNonnegative(bound + c, error + off);
    assert (bound - c) * (error + off) + (bound + c) * (error - off) == 2.0 * (bound * error) - 2.0 * (c * off);
    assert (bound - c) * (error - off) + (bound + c) * (error + off) == 2.0 * (bound * error) + 2.0 * (c * off);
  }

  lemma TwoErrors(x: real, x0: real, y: real, y0: real, e: real, f: real, mean: real, exact: real)
    requires Bounded(x - x0, e) && Bounded(y - y0, f) && mean == x + y && exact == x0 + y0
    ensures Bounded(mean - exact, e + f)
  {
  }

  lemma SumsBounded(c: seq<real>, bound: real)
    requires |c| == 10 && forall k :: 0 <= k < 10 ==> Bounded(c[k], bound)
    ensures Bounded(c[0] + c[1] + c[2] + c[3], 4.0 * bound)
    ensures Bounded(c[4] + c[5] + c[6] + c[7] + c[8] + c[9], 6.0 * bound)
  {
    assert Bounded(c[0], bound) && Bounded(c[1], bound) && Bounded(c[2], bound) && Bounded(c[3], bound);
    assert Bounded(c[4], bound) && Bounded(c[5], bound) && Bounded(c[6], bound);
    assert Bounded(c[7], bound) && Bounded(c[8], bound) && Bounded(c[9], bound);
  }

  /** The four points give the mean of every quadratic field, up to the rounding of
      their coordinates. */
  lemma QuadraticsIntegrated(c: seq<real>, bound: real)
    requires |c| == 10 && forall k :: 0 <= k < 10 ==> Bounded(c[k], bound)
    ensures Bounded(PointMean(c) - FieldMean(c), bound * 0.000000000000001)
  {
    PointMeanOf(c);
    RoundedMeans();
    SumsBounded(c, bound);
    MeansBounded(c[0] + c[1] + c[2] + c[3], c[4] + c[5] + c[6] + c[7] + c[8] + c[9], bound, SQUARES, PRODUCTS,
      PointMean(c), FieldMean(c));
  }

  lemma MeansBounded(s: real, p: real, bound: real, m: real, n: real, mean: real, exact: real)
    requires Bounded(s, 4.0 * bound) && Bounded(p, 6.0 * bound)
    requires Bounded(m - 0.1, 0.0000000000000001) && Bounded(n - 0.05, 0.0000000000000001)
    requires IsMix(mean, s, m, p, n) && exact == s / 10.0 + p / 20.0
    ensures Bounded(mean - exact, bound * 0.000000000000001)
  {
    RoundedTerm(s, 4.0 * bound, m, 0.1, 0.0000000000000001);
    RoundedTerm(p, 6.0 * bound, n, 0.05, 0.0000000000000001);
    TwoErrors(s * m, s * 0.1, p * n, p * 0.05, 4.0 * bound * 0.0000000000000001, 6.0 * bound * 0.0000000000000001,
      mean, exact);
  }

  // ---------------------------------------------------------------- consistent weights of straight elements

  /** What a straight element of volume one puts on a node: minus a twentieth on a
      corner, a fifth on the middle of an edge. */
  function IdealWeight(node: nat): real {
    if node < 4 then -0.05 else 0.2
  }

  /** The sum of a shape function over the four points. */
  function ShapeSum(node: nat): real
    requires node < 10
  {
    ShapeFunctions(SAMPLE_POINTS[0])[node] + ShapeFunctions(SAMPLE_POINTS[1])[node]
    + ShapeFunctions(SAMPLE_POINTS[2])[node] + ShapeFunctions(SAMPLE_POINTS[3])[node]
  }

  const CORNER_SUM := A * (2.0 * A - 1.0) + 3.0 * (B * (2.0 * B - 1.0))
  const EDGE_SUM := 8.0 * (A * B) + 8.0 * (B * B)

  lemma SumsInDigits()
    ensures Bounded(CORNER_SUM + 0.2, 0.0000000000000001) && Bounded(EDGE_SUM - 0.8, 0.0000000000000001)
  {
  }

  lemma CornerSum(node: nat)
    requires node < 4
    ensures ShapeSum(node) == CORNER_SUM
  {
    AllSamplePoints();
  }

  lemma EdgeSum(node: nat)
    requires 4 <= node < 10
    ensures ShapeSum(node) == EDGE_SUM
  {
    AllSamplePoints();
  }

  lemma ShapeSumBounded(node: nat)
    requires node < 10
    ensures Bounded(ShapeSum(node) - 4.0 * IdealWeight(node), 0.0000000000000001)
  {
    SumsInDigits();
    if node < 4 {
      CornerSum(node);
    } else {
      EdgeSum(node);
    }
  }

  lemma FourWeights(samples: seq<Sample>, node: nat)
    requires |samples| == 4 && forall q :: 0 <= q < 4 ==> node < |samples[q].shapeFunctions|
    ensures NodalWeight(samples, node) ==
      samples[0].volumeWeight * samples[0].shapeFunctions[node]
      + samples[1].volumeWeight * samples[1].shapeFunctions[node]
      + samples[2].volumeWeight * samples[2].shapeFunctions[node]
      + samples[3].volumeWeight * samples[3].shapeFunctions[node]
  {
    assert samples[..3][..2] == samples[..2] && samples[..2][..1] == samples[..1] && samples[..1][..0] == [];
    assert NodalWeight(samples[..1], node) == samples[0].volumeWeight * samples[0].shapeFunctions[node];
    assert NodalWeight(samples[..2], node) ==
      NodalWeight(samples[..1], node) + samples[1].volumeWeight * samples[1].shapeFunctions[node];
    assert NodalWeight(samples[..3], node) ==
      NodalWeight(samples[..2], node) + samples[2].volumeWeight * samples[2].shapeFunctions[node];
  }

  lemma EqualWeights(w: real, n0: real, n1: real, n2: real, n3: real)
    ensures w * n0 + w * n1 + w * n2 + w * n3 == w * (n0 + n1 + n2 + n3)
  {
  }

  lemma FourTimes(w: real, x: real)
    ensures w * (4.0 * x) == (4.0 * w) * x
  {
  }

  lemma WeightedShape(load: real, w: real, sum: real, ideal: real, error: real)
    requires IsProduct(load, w, sum) && w >= 0.0 && error >= 0.0 && Bounded(sum - 4.0 * ideal, error)
    ensures Bounded(load - (4.0 * w) * ideal, (4.0 * w) * error)
  {
    RoundedTerm(w, w, sum, 4.0 * ideal, error);
    FourTimes(w, ideal);
    ProductNonnegative(w, error);
    assert (4.0 * w) * error == 4.0 * (w * error);
  }

  /** The four samples of a straight element. */
  ghost predicate FourOf(samples: seq<Sample>, weight: real) {
    && |samples| == 4
    && forall q :: 0 <= q < 4 ==> samples[q] == Sample(weight, ShapeFunctions(SAMPLE_POINTS[q]))
  }

  lemma StraightSample(points: seq<Vec3>, samples: seq<Sample>, q: nat)
    requires Straight(points) && QuadraticTetraVolumeSamples(points) == Success(samples) && q < 4
    ensures |samples| == 4
    ensures samples[q] == Sample(TetraVolume(Corners(points)) / 4.0, ShapeFunctions(SAMPLE_POINTS[q]))
  {
    SampleAt(points, samples, q);
    SamplePointsSum(q);
    StraightJacobian(points, SAMPLE_POINTS[q]);
  }

  lemma StraightSamples(points: seq<Vec3>, samples: seq<Sample>)
    requires Straight(points) && QuadraticTetraVolumeSamples(points) == Success(samples)
    ensures FourOf(samples, TetraVolume(Corners(points)) / 4.0)
  {
    forall q | 0 <= q < 4
      ensures |samples| == 4
      ensures samples[q] == Sample(TetraVolume(Corners(points)) / 4.0, ShapeFunctions(SAMPLE_POINTS[q]))
    {
      StraightSample(points, samples, q);
    }
  }

  /** A product of a weight and a sum. */
  lemma WeightOfFour(samples: seq<Sample>, weight: real, node: nat)
    requires FourOf(samples, weight) && node < 10
    ensures IsProduct(NodalWeight(samples, node), weight, ShapeSum(node))
  {
    FourWeights(samples, node);
    EqualWeights(weight, ShapeFunctions(SAMPLE_POINTS[0])[node], ShapeFunctions(SAMPLE_POINTS[1])[node],
      ShapeFunctions(SAMPLE_POINTS[2])[node], ShapeFunctions(SAMPLE_POINTS[3])[node]);
  }

  /** A load within rounding of its share of the volume. */
  ghost predicate IsShare(load: real, volume: real, ideal: real) {
    Bounded(load - volume * ideal, volume * 0.0000000000000001)
  }

  lemma SumOfFour(samples: seq<Sample>, weight: real, node: nat) returns (sum: real)
    requires FourOf(samples, weight) && node < 10
    ensures IsProduct(NodalWeight(samples, node), weight, sum)
    ensures Bounded(sum - 4.0 * IdealWeight(node), 0.0000000000000001)
  {
    sum := ShapeSum(node);
    WeightOfFour(samples, weight, node);
    ShapeSumBounded(node);
  }

  lemma ShareOfLoad(load: real, w: real, volume: real, sum: real, ideal: real)
    requires IsProduct(load, w, sum) && w == volume / 4.0 && volume >= 0.0
    requires Bounded(sum - 4.0 * ideal, 0.0000000000000001)
    ensures IsShare(load, volume, ideal)
  {
    WeightedShape(load, w, sum, ideal, 0.0000000000000001);
    assert 4.0 * w == volume;
  }

  lemma SharesOfFour(samples: seq<Sample>, volume: real, node: nat)
    requires FourOf(samples, volume / 4.0) && volume >= 0.0 && node < 10
    ensures IsShare(NodalWeight(samples, node), volume, IdealWeight(node))
  {
    var sum := SumOfFour(samples, volume / 4.0, node);
    ShareOfLoad(NodalWeight(samples, node), volume / 4.0, volume, sum, IdealWeight(node));
  }

  /** A straight element puts minus a twentieth of its volume on each corner and a
      fifth on each midside node, up to the rounding of the points. */
  lemma ConsistentWeights(points: seq<Vec3>, samples: seq<Sample>, node: nat)
    requires Straight(points) && QuadraticTetraVolumeSamples(points) == Success(samples) && node < 10
    ensures |samples| == 4 && forall q :: 0 <= q < 4 ==> node < |samples[q].shapeFunctions|
    ensures IsShare(NodalWeight(samples, node), TetraVolume(Corners(points)), if node < 4 then -0.05 else 0.2)
  {
    StraightSamples(points, samples);
    SharesOfFour(samples, TetraVolume(Corners(points)), node);
  }
}
