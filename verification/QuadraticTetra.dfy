/** Ten-node tetrahedra: shape functions, Jacobians and the four-point volume
    integration, for straight and curved elements alike. */
module QuadraticTetra {
  import opened Wrappers
  import opened FemModel
  import opened TetraGeometry

  datatype MeshError = Unsupported | Singular | Inverted

  datatype Sample = Sample(volumeWeight: real, shapeFunctions: seq<real>)

  /** Corners joined by each midside node, from node 4 on. */
  const EDGES: seq<(nat, nat)> := [(0, 1), (1, 2), (2, 0), (0, 3), (2, 3), (1, 3)]

  const DERIVATIVES: seq<seq<real>> := [[-1.0, 1.0, 0.0, 0.0], [-1.0, 0.0, 1.0, 0.0], [-1.0, 0.0, 0.0, 1.0]]

  const A := 0.5854101966249685
  const B := 0.1381966011250105

  const THRESHOLD := 0.000000000000000001

  /** Barycentric coordinates of the quadrature points. */
  const SAMPLE_POINTS: seq<seq<real>> := [Barycentric(B, B, B), Barycentric(A, B, B), Barycentric(B, A, B),
    Barycentric(B, B, A)]

  function Barycentric(r: real, s: real, t: real): (l: seq<real>)
    ensures |l| == 4
  {
    [1.0 - r - s - t, r, s, t]
  }

  function ShapeFunction(l: seq<real>, node: nat): real
    requires |l| == 4 && node < 10
  {
    if node < 4 then l[node] * (2.0 * l[node] - 1.0)
    else 4.0 * l[EDGES[node - 4].0] * l[EDGES[node - 4].1]
  }

  function ShapeFunctions(l: seq<real>): (n: seq<real>)
    requires |l| == 4
    ensures |n| == 10
  {
    seq(10, node requires 0 <= node < 10 => ShapeFunction(l, node))
  }

  function GradientAt(l: seq<real>, d: seq<real>, node: nat): real
    requires |l| == |d| == 4 && node < 10
  {
    if node < 4 then (4.0 * l[node] - 1.0) * d[node]
    else
      var (i, j) := EDGES[node - 4];
      4.0 * (d[i] * l[j] + l[i] * d[j])
  }

  /** The derivatives of the shape functions in direction `d`. */
  function Gradient(l: seq<real>, d: seq<real>): (g: seq<real>)
    requires |l| == |d| == 4
    ensures |g| == 10
  {
    seq(10, node requires 0 <= node < 10 => GradientAt(l, d, node))
  }

  /** The sum of the first `k` values times their weights. */
  function WeightedSum(values: seq<real>, weights: seq<real>, k: nat): real
    requires k <= |values| == |weights|
    decreases k
  {
    if k == 0 then 0.0 else WeightedSum(values, weights, k - 1) + values[k - 1] * weights[k - 1]
  }

  function Xs(points: seq<Vec3>): (r: seq<real>)
    ensures |r| == |points|
  {
    seq(|points|, i requires 0 <= i < |points| => points[i].x)
  }

  function Ys(points: seq<Vec3>): (r: seq<real>)
    ensures |r| == |points|
  {
    seq(|points|, i requires 0 <= i < |points| => points[i].y)
  }

  function Zs(points: seq<Vec3>): (r: seq<real>)
    ensures |r| == |points|
  {
    seq(|points|, i requires 0 <= i < |points| => points[i].z)
  }

  function Interpolate(points: seq<Vec3>, weights: seq<real>): Vec3
    requires |points| == |weights|
  {
    Vec3(WeightedSum(Xs(points), weights, |points|), WeightedSum(Ys(points), weights, |points|),
         WeightedSum(Zs(points), weights, |points|))
  }

  function Jacobian(points: seq<Vec3>, l: seq<real>): real
    requires |points| == 10 && |l| == 4
  {
    Determinant(Interpolate(points, Gradient(l, DERIVATIVES[0])),
                Interpolate(points, Gradient(l, DERIVATIVES[1])),
                Interpolate(points, Gradient(l, DERIVATIVES[2])))
  }

  function Sign(x: real): int {
    if x > 0.0 then 1 else if x < 0.0 then -1 else 0
  }

  datatype Integration = Integration(samples: seq<Sample>, orientation: int)

  function Jacobians(points: seq<Vec3>): (j: seq<real>)
    requires |points| == 10
    ensures |j| == 4
  {
    seq(4, k requires 0 <= k < 4 => Jacobian(points, SAMPLE_POINTS[k]))
  }

  /** The first `k` quadrature points, in order, given the Jacobians there. */
  function SamplesFirst(jacobians: seq<real>, k: nat): Result<Integration, MeshError>
    requires k <= |jacobians| == 4
  {
    if k == 0 then Success(Integration([], 0))
    else
      var before :- SamplesFirst(jacobians, k - 1);
      var jacobian := jacobians[k - 1];
      if Abs(jacobian) <= THRESHOLD then Failure(Singular)
      else if before.orientation != 0 && Sign(jacobian) != before.orientation then Failure(Inverted)
      else
        var sample := Sample(Abs(jacobian) / 24.0, ShapeFunctions(SAMPLE_POINTS[k - 1]));
        Success(Integration(before.samples + [sample], Sign(jacobian)))
  }

  function SamplesOf(jacobians: seq<real>): Result<seq<Sample>, MeshError>
    requires |jacobians| == 4
  {
    var i :- SamplesFirst(jacobians, 4);
    Success(i.samples)
  }

  function QuadraticTetraVolumeSamples(points: seq<Vec3>): Result<seq<Sample>, MeshError> {
    if |points| != 10 then Failure(Unsupported) else SamplesOf(Jacobians(points))
  }

  function TotalWeight(samples: seq<Sample>): real {
    if samples == [] then 0.0
    else TotalWeight(samples[..|samples| - 1]) + samples[|samples| - 1].volumeWeight
  }

  function VolumeOf(samples: Result<seq<Sample>, MeshError>): Result<real, MeshError> {
    match samples
    case Failure(error) => Failure(error)
    case Success(s) => Success(TotalWeight(s))
  }

  function QuadraticTetraVolume(points: seq<Vec3>): Result<real, MeshError> {
    VolumeOf(QuadraticTetraVolumeSamples(points))
  }

  lemma {:induction false} FailureStays(jacobians: seq<real>, k: nat, n: nat)
    requires k <= n <= |jacobians| == 4 && SamplesFirst(jacobians, k).Failure?
    ensures SamplesFirst(jacobians, n) == SamplesFirst(jacobians, k)
  {
    if k < n {
      FailureStays(jacobians, k, n - 1);
    }
  }

  lemma NextSample(jacobians: seq<real>, k: nat, before: Integration)
    requires k < |jacobians| == 4 && SamplesFirst(jacobians, k) == Success(before)
    requires Abs(jacobians[k]) > THRESHOLD && (before.orientation == 0 || Sign(jacobians[k]) == before.orientation)
    ensures SamplesFirst(jacobians, k + 1) == Success(Integration(
      before.samples + [Sample(Abs(jacobians[k]) / 24.0, ShapeFunctions(SAMPLE_POINTS[k]))], Sign(jacobians[k])))
  {
  }

  lemma RefusedSample(jacobians: seq<real>, k: nat, before: Integration)
    requires k < |jacobians| == 4 && SamplesFirst(jacobians, k) == Success(before)
    requires Abs(jacobians[k]) <= THRESHOLD || (before.orientation != 0 && Sign(jacobians[k]) != before.orientation)
    ensures SamplesOf(jacobians) == Failure(if Abs(jacobians[k]) <= THRESHOLD then Singular else Inverted)
  {
    var error := if Abs(jacobians[k]) <= THRESHOLD then Singular else Inverted;
    assert SamplesFirst(jacobians, k + 1) == Failure(error);
    FailureStays(jacobians, k + 1, 4);
  }

  // ---------------------------------------------------------------- the sums over ten nodes

  /** Node values of a straight element: midside values are means of corner values. */
  ghost predicate StraightValues(v: seq<real>) {
    && |v| == 10
    && forall node :: 4 <= node < 10 ==> IsMean(v, node)
  }

  ghost predicate IsMean(v: seq<real>, node: nat)
    requires |v| == 10 && 4 <= node < 10
  {
    2.0 * v[node] == v[EDGES[node - 4].0] + v[EDGES[node - 4].1]
  }

  ghost predicate HasShares(g: seq<real>, d: seq<real>) {
    && |g| == 10 && |d| == 4
    && d[0] == g[0] + g[4] / 2.0 + g[6] / 2.0 + g[7] / 2.0
    && d[1] == g[1] + g[4] / 2.0 + g[5] / 2.0 + g[9] / 2.0
    && d[2] == g[2] + g[5] / 2.0 + g[6] / 2.0 + g[8] / 2.0
    && d[3] == g[3] + g[7] / 2.0 + g[8] / 2.0 + g[9] / 2.0
  }

  lemma GradientShares(l: seq<real>, d: seq<real>)
    requires |l| == |d| == 4 && l[0] + l[1] + l[2] + l[3] == 1.0 && d[0] + d[1] + d[2] + d[3] == 0.0
    ensures HasShares(Gradient(l, d), d)
  {
  }

  /** One weight changed by `x`. */
  function Bump(w: seq<real>, k: nat, x: real): (r: seq<real>)
    requires k < |w|
    ensures |r| == |w|
  {
    w[k := w[k] + x]
  }

  lemma {:induction false} SumBeyond(v: seq<real>, w: seq<real>, k: nat, x: real, n: nat)
    requires n <= k < |w| == |v|
    ensures WeightedSum(v, Bump(w, k, x), n) == WeightedSum(v, w, n)
  {
    if n > 0 {
      SumBeyond(v, w, k, x, n - 1);
    }
  }

  lemma Distribute(a: real, b: real, c: real, sum: real)
    requires sum == b + c
    ensures a * sum == a * b + a * c
  {
  }

  lemma {:induction false} SumUpdate(v: seq<real>, w: seq<real>, k: nat, x: real, n: nat)
    requires k < n <= |w| == |v|
    ensures WeightedSum(v, Bump(w, k, x), n) == WeightedSum(v, w, n) + v[k] * x
  {
    var bumped := Bump(w, k, x);
    if k == n - 1 {
      SumBeyond(v, w, k, x, n - 1);
      assert bumped[k] == w[k] + x;
      Distribute(v[k], w[k], x, bumped[k]);
    } else {
      SumUpdate(v, w, k, x, n - 1);
      assert bumped[n - 1] == w[n - 1];
    }
  }

  /** A node's weight handed to two others in equal parts. */
  function HandOver(w: seq<real>, node: nat, i: nat, j: nat): (r: seq<real>)
    requires node < |w| && i < |w| && j < |w|
    ensures |r| == |w|
  {
    Bump(Bump(Bump(w, node, -w[node]), i, w[node] / 2.0), j, w[node] / 2.0)
  }

  /** A sum that changes with each weight by the value at that node. */
  ghost predicate LinearIn(sum: seq<real> -> real, v: seq<real>) {
    forall w: seq<real>, k: nat, x: real :: |w| == |v| && k < |v| ==> sum(Bump(w, k, x)) == sum(w) + v[k] * x
  }

  function SumWith(v: seq<real>): seq<real> -> real {
    w => if |w| == |v| then WeightedSum(v, w, |v|) else 0.0
  }

  lemma WeightedSumIsLinear(v: seq<real>)
    ensures LinearIn(SumWith(v), v)
  {
    forall w: seq<real>, k: nat, x: real | |w| == |v| && k < |v|
      ensures SumWith(v)(Bump(w, k, x)) == SumWith(v)(w) + v[k] * x
    {
      SumUpdate(v, w, k, x, |v|);
    }
  }

  lemma HandOverKeepsSum(sum: seq<real> -> real, v: seq<real>, w: seq<real>, node: nat, i: nat, j: nat)
    requires LinearIn(sum, v) && |v| == |w| && node < |v| && i < |v| && j < |v| && 2.0 * v[node] == v[i] + v[j]
    ensures sum(HandOver(w, node, i, j)) == sum(w)
  {
  }

  /** The midside weights from node 4 up to `node` handed to the corners. */
  function HandAllOver(w: seq<real>, node: nat): (r: seq<real>)
    requires |w| == 10 && 4 <= node <= 10
    ensures |r| == 10
  {
    if node == 4 then w else HandOver(HandAllOver(w, node - 1), node - 1, EDGES[node - 5].0, EDGES[node - 5].1)
  }

  lemma {:induction false} HandAllOverKeepsSum(sum: seq<real> -> real, v: seq<real>, w: seq<real>, node: nat)
    requires LinearIn(sum, v) && StraightValues(v) && |w| == 10 && 4 <= node <= 10
    ensures sum(HandAllOver(w, node)) == sum(w)
  {
    if node > 4 {
      HandAllOverKeepsSum(sum, v, w, node - 1);
      assert IsMean(v, node - 1);
      HandOverKeepsSum(sum, v, HandAllOver(w, node - 1), node - 1, EDGES[node - 5].0, EDGES[node - 5].1);
    }
  }

  lemma SharesHandedOver(g: seq<real>, d: seq<real>)
    requires HasShares(g, d)
    ensures HandAllOver(g, 10) == d + [0.0, 0.0, 0.0, 0.0, 0.0, 0.0]
  {
    assert HandAllOver(g, 4) == g;
    var g5 := HandOver(g, 4, 0, 1);
    assert HandAllOver(g, 5) == g5;
    var g6 := HandOver(g5, 5, 1, 2);
    assert HandAllOver(g, 6) == g6;
    var g7 := HandOver(g6, 6, 2, 0);
    assert HandAllOver(g, 7) == g7;
    var g8 := HandOver(g7, 7, 0, 3);
    assert HandAllOver(g, 8) == g8;
    var g9 := HandOver(g8, 8, 2, 3);
    assert HandAllOver(g, 9) == g9;
    assert HandAllOver(g, 10) == HandOver(g9, 9, 1, 3);
  }

  lemma CornersOnly(v: seq<real>, d: seq<real>)
    requires |v| == 10 && |d| == 4
    ensures WeightedSum(v, d + [0.0, 0.0, 0.0, 0.0, 0.0, 0.0], 10) ==
      v[0] * d[0] + v[1] * d[1] + v[2] * d[2] + v[3] * d[3]
  {
  }

  /** A straight element weighs its corners only. */
  lemma StraightSum(v: seq<real>, g: seq<real>, d: seq<real>)
    requires StraightValues(v) && HasShares(g, d)
    ensures WeightedSum(v, g, |v|) == v[0] * d[0] + v[1] * d[1] + v[2] * d[2] + v[3] * d[3]
  {
    WeightedSumIsLinear(v);
    HandAllOverKeepsSum(SumWith(v), v, g, 10);
    SharesHandedOver(g, d);
    CornersOnly(v, d);
  }

  // ---------------------------------------------------------------- interpolation

  lemma ShapeShares(l: seq<real>)
    requires |l| == 4 && l[0] + l[1] + l[2] + l[3] == 1.0
    ensures HasShares(ShapeFunctions(l), l)
  {
  }

  /** Values that vary linearly over the element are interpolated exactly. */
  lemma LinearCompleteness(v: seq<real>, l: seq<real>)
    requires StraightValues(v) && |l| == 4 && l[0] + l[1] + l[2] + l[3] == 1.0
    ensures WeightedSum(v, ShapeFunctions(l), |v|) == v[0] * l[0] + v[1] * l[1] + v[2] * l[2] + v[3] * l[3]
  {
    ShapeShares(l);
    StraightSum(v, ShapeFunctions(l), l);
  }

  const ONES: seq<real> := [1.0, 1.0, 1.0, 1.0, 1.0, 1.0, 1.0, 1.0, 1.0, 1.0]

  lemma OnesAreStraight()
    ensures StraightValues(ONES)
  {
  }

  /** The shape functions sum to one, their gradients to zero. */
  lemma PartitionOfUnity(l: seq<real>, d: seq<real>)
    requires |l| == |d| == 4 && l[0] + l[1] + l[2] + l[3] == 1.0 && d[0] + d[1] + d[2] + d[3] == 0.0
    ensures WeightedSum(ONES, ShapeFunctions(l), |ONES|) == 1.0
    ensures WeightedSum(ONES, Gradient(l, d), |ONES|) == 0.0
  {
    OnesAreStraight();
    LinearCompleteness(ONES, l);
    GradientShares(l, d);
    StraightSum(ONES, Gradient(l, d), d);
  }

  // ---------------------------------------------------------------- straight elements

  ghost predicate Straight(points: seq<Vec3>) {
    |points| == 10 && StraightValues(Xs(points)) && StraightValues(Ys(points)) && StraightValues(Zs(points))
  }

  function Corners(points: seq<Vec3>): Tetra
    requires |points| == 10
  {
    Tetra(points[0], points[1], points[2], points[3])
  }

  /** The derivative towards a corner: plus one there, minus one at the origin. */
  ghost predicate Towards(d: seq<real>, corner: nat) {
    && |d| == 4 && 1 <= corner < 4 && d[0] == -1.0
    && forall k :: 1 <= k < 4 ==> d[k] == if k == corner then 1.0 else 0.0
  }

  lemma AxisTowards(axis: nat)
    requires axis < 3
    ensures Towards(DERIVATIVES[axis], axis + 1)
  {
  }

  lemma TermsTowards(v: seq<real>, d: seq<real>, corner: nat)
    requires |v| == 10 && Towards(d, corner)
    ensures v[0] * d[0] + v[1] * d[1] + v[2] * d[2] + v[3] * d[3] == v[corner] - v[0]
  {
    assert v[0] * d[0] == -v[0];
    assert v[1] * d[1] == if corner == 1 then v[1] else 0.0;
    assert v[2] * d[2] == if corner == 2 then v[2] else 0.0;
    assert v[3] * d[3] == if corner == 3 then v[3] else 0.0;
  }

  /** The derivative of linearly varying values along an edge is their difference. */
  lemma DifferenceTowards(v: seq<real>, l: seq<real>, d: seq<real>, corner: nat)
    requires StraightValues(v) && |l| == 4 && l[0] + l[1] + l[2] + l[3] == 1.0 && Towards(d, corner)
    ensures WeightedSum(v, Gradient(l, d), |v|) == v[corner] - v[0]
  {
    assert d[1] + d[2] + d[3] == 1.0;
    GradientShares(l, d);
    StraightSum(v, Gradient(l, d), d);
    TermsTowards(v, d, corner);
  }

  lemma StraightColumn(points: seq<Vec3>, l: seq<real>, axis: nat)
    requires Straight(points) && |l| == 4 && l[0] + l[1] + l[2] + l[3] == 1.0 && axis < 3
    ensures Interpolate(points, Gradient(l, DERIVATIVES[axis])) == points[axis + 1].Minus(points[0])
  {
    var d := DERIVATIVES[axis];
    AxisTowards(axis);
    DifferenceTowards(Xs(points), l, d, axis + 1);
    DifferenceTowards(Ys(points), l, d, axis + 1);
    DifferenceTowards(Zs(points), l, d, axis + 1);
  }

  /** On a straight element the Jacobian is the same everywhere. */
  lemma StraightJacobian(points: seq<Vec3>, l: seq<real>)
    requires Straight(points) && |l| == 4 && l[0] + l[1] + l[2] + l[3] == 1.0
    ensures Jacobian(points, l) == Signed6Volume(Corners(points))
  {
    StraightColumn(points, l, 0);
    StraightColumn(points, l, 1);
    StraightColumn(points, l, 2);
  }

  lemma SamplePointsSum(k: nat)
    requires k < 4
    ensures var l := SAMPLE_POINTS[k]; l[0] + l[1] + l[2] + l[3] == 1.0
  {
  }

  lemma OneMoreWeight(samples: seq<Sample>, s: Sample)
    ensures TotalWeight(samples + [s]) == TotalWeight(samples) + s.volumeWeight
  {
  }

  /** `x` added up `k` times. */
  function Repeated(x: real, k: nat): real {
    if k == 0 then 0.0 else Repeated(x, k - 1) + x
  }

  lemma FourTimes(x: real)
    ensures Repeated(x, 4) == 4.0 * x
  {
    assert Repeated(x, 1) == Repeated(x, 0) + x == x;
    assert Repeated(x, 2) == Repeated(x, 1) + x;
    assert Repeated(x, 3) == Repeated(x, 2) + x;
    assert Repeated(x, 4) == Repeated(x, 3) + x;
  }

  /** Equal Jacobians clear of zero are all accepted and weigh the same. */
  lemma {:induction false} ConstantSamples(jacobians: seq<real>, j: real, k: nat) returns (i: Integration)
    requires |jacobians| == 4 && k <= 4 && Abs(j) > THRESHOLD && forall q :: 0 <= q < 4 ==> jacobians[q] == j
    ensures SamplesFirst(jacobians, k) == Success(i)
    ensures i.orientation == (if k == 0 then 0 else Sign(j)) && TotalWeight(i.samples) == Repeated(Abs(j) / 24.0, k)
  {
    if k == 0 {
      i := Integration([], 0);
    } else {
      var before := ConstantSamples(jacobians, j, k - 1);
      var sample := Sample(Abs(j) / 24.0, ShapeFunctions(SAMPLE_POINTS[k - 1]));
      NextSample(jacobians, k - 1, before);
      OneMoreWeight(before.samples, sample);
      i := Integration(before.samples + [sample], Sign(j));
    }
  }

  lemma ConstantVolume(jacobians: seq<real>, j: real)
    requires |jacobians| == 4 && forall q :: 0 <= q < 4 ==> jacobians[q] == j
    ensures VolumeOf(SamplesOf(jacobians)) == if Abs(j) <= THRESHOLD then Failure(Singular) else Success(Abs(j) / 6.0)
  {
    if Abs(j) <= THRESHOLD {
      RefusedSample(jacobians, 0, Integration([], 0));
    } else {
      var i := ConstantSamples(jacobians, j, 4);
      FourTimes(Abs(j) / 24.0);
    }
  }

  lemma StraightJacobians(points: seq<Vec3>, k: nat)
    requires Straight(points) && k < 4
    ensures Jacobians(points)[k] == Signed6Volume(Corners(points))
  {
    SamplePointsSum(k);
    StraightJacobian(points, SAMPLE_POINTS[k]);
  }

  /** A straight ten-node element has the volume of its corners, or is refused
      as singular when that volume is next to nothing. */
  lemma StraightVolume(points: seq<Vec3>)
    requires Straight(points)
    ensures QuadraticTetraVolume(points) ==
      if Abs(Signed6Volume(Corners(points))) <= THRESHOLD then Failure(Singular)
      else Success(TetraVolume(Corners(points)))
  {
    forall k | 0 <= k < 4 ensures Jacobians(points)[k] == Signed6Volume(Corners(points)) {
      StraightJacobians(points, k);
    }
    ConstantVolume(Jacobians(points), Signed6Volume(Corners(points)));
  }
}
