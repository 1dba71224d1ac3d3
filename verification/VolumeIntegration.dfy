/** What an accepted ten-node element guarantees, curved or not, and the
    integration as the program runs it. */
module VolumeIntegration {
  import opened Wrappers
  import opened FemModel
  import opened TetraGeometry
  import opened QuadraticTetra

  // ---------------------------------------------------------------- acceptance

  /** Every Jacobian is clear of zero and all have the orientation of the first. */
  ghost predicate EquallyOriented(jacobians: seq<real>, k: nat)
    requires k <= |jacobians|
  {
    forall q :: 0 <= q < k ==> Abs(jacobians[q]) > THRESHOLD && Sign(jacobians[q]) == Sign(jacobians[0])
  }

  lemma {:induction false} RegularSamples(jacobians: seq<real>, k: nat)
    requires k <= |jacobians| == 4
    ensures SamplesFirst(jacobians, k).Success? <==> EquallyOriented(jacobians, k)
    ensures SamplesFirst(jacobians, k).Success? && k > 0 ==>
      SamplesFirst(jacobians, k).value.orientation == Sign(jacobians[k - 1]) != 0
    ensures SamplesFirst(jacobians, k).Success? && k == 0 ==> SamplesFirst(jacobians, k).value.orientation == 0
  {
    if k > 0 {
      RegularSamples(jacobians, k - 1);
    }
  }

  /** An element is integrated exactly when it has ten nodes and its Jacobians
      at the quadrature points are clear of zero and equally oriented. */
  lemma AcceptedExactly(points: seq<Vec3>)
    ensures QuadraticTetraVolumeSamples(points).Success? <==> |points| == 10 && EquallyOriented(Jacobians(points), 4)
  {
    if |points| == 10 {
      RegularSamples(Jacobians(points), 4);
    }
  }

  lemma LargerShare(j: real)
    requires Abs(j) > THRESHOLD
    ensures Abs(j) / 24.0 > THRESHOLD / 24.0
  {
  }

  lemma {:induction false} PositiveWeights(jacobians: seq<real>, k: nat)
    requires k <= |jacobians| == 4 && SamplesFirst(jacobians, k).Success?
    ensures TotalWeight(SamplesFirst(jacobians, k).value.samples) >= Repeated(THRESHOLD / 24.0, k)
    ensures k > 0 ==> TotalWeight(SamplesFirst(jacobians, k).value.samples) > Repeated(THRESHOLD / 24.0, k)
  {
    if k > 0 {
      PositiveWeights(jacobians, k - 1);
      var before := SamplesFirst(jacobians, k - 1).value;
      NextSample(jacobians, k - 1, before);
      OneMoreWeight(before.samples, Sample(Abs(jacobians[k - 1]) / 24.0, ShapeFunctions(SAMPLE_POINTS[k - 1])));
      LargerShare(jacobians[k - 1]);
    }
  }

  /** No accepted element has a volume near zero. */
  lemma AcceptedVolume(points: seq<Vec3>)
    requires QuadraticTetraVolume(points).Success?
    ensures QuadraticTetraVolume(points).value > THRESHOLD / 6.0
  {
    PositiveWeights(Jacobians(points), 4);
    FourTimes(THRESHOLD / 24.0);
  }

  // ---------------------------------------------------------------- consistent nodal weights

  /** What the consistent load of a unit density puts on one node. */
  function NodalWeight(samples: seq<Sample>, node: nat): real
    requires forall q :: 0 <= q < |samples| ==> node < |samples[q].shapeFunctions|
  {
    if samples == [] then 0.0
    else
      var last := samples[|samples| - 1];
      NodalWeight(samples[..|samples| - 1], node) + last.volumeWeight * last.shapeFunctions[node]
  }

  function NodalTotal(samples: seq<Sample>, nodes: nat): real
    requires forall q :: 0 <= q < |samples| ==> nodes <= |samples[q].shapeFunctions|
  {
    if nodes == 0 then 0.0 else NodalTotal(samples, nodes - 1) + NodalWeight(samples, nodes - 1)
  }

  lemma NodalWeightAppend(samples: seq<Sample>, s: Sample, node: nat)
    requires node < |s.shapeFunctions| && forall q :: 0 <= q < |samples| ==> node < |samples[q].shapeFunctions|
    ensures NodalWeight(samples + [s], node) == NodalWeight(samples, node) + s.volumeWeight * s.shapeFunctions[node]
  {
  }

  lemma WeightedTerm(weight: real, sum: real, shape: real, one: real)
    requires one == 1.0
    ensures weight * (sum + one * shape) == weight * sum + weight * shape
  {
  }

  lemma {:induction false} OneMoreSample(samples: seq<Sample>, s: Sample, nodes: nat)
    requires |s.shapeFunctions| == |ONES| && nodes <= |ONES|
    requires forall q :: 0 <= q < |samples| ==> |samples[q].shapeFunctions| == |ONES|
    ensures NodalTotal(samples + [s], nodes) ==
      NodalTotal(samples, nodes) + s.volumeWeight * WeightedSum(ONES, s.shapeFunctions, nodes)
  {
    if nodes > 0 {
      OneMoreSample(samples, s, nodes - 1);
      NodalWeightAppend(samples, s, nodes - 1);
      WeightedTerm(s.volumeWeight, WeightedSum(ONES, s.shapeFunctions, nodes - 1), s.shapeFunctions[nodes - 1],
        ONES[nodes - 1]);
    }
  }

  ghost predicate UnitShapes(samples: seq<Sample>) {
    forall q :: 0 <= q < |samples| ==>
      |samples[q].shapeFunctions| == |ONES| && WeightedSum(ONES, samples[q].shapeFunctions, |ONES|) == 1.0
  }

  lemma {:induction false} NodalWeightsSum(samples: seq<Sample>)
    requires UnitShapes(samples)
    ensures NodalTotal(samples, |ONES|) == TotalWeight(samples)
  {
    if samples == [] {
      NoSamples(|ONES|);
    } else {
      var init, last := samples[..|samples| - 1], samples[|samples| - 1];
      assert samples == init + [last];
      NodalWeightsSum(init);
      OneMoreSample(init, last, |ONES|);
    }
  }

  lemma {:induction false} NoSamples(nodes: nat)
    ensures NodalTotal([], nodes) == 0.0
  {
    if nodes > 0 {
      NoSamples(nodes - 1);
    }
  }

  lemma UnitShape(q: nat)
    requires q < 4
    ensures WeightedSum(ONES, ShapeFunctions(SAMPLE_POINTS[q]), |ONES|) == 1.0
  {
    SamplePointsSum(q);
    PartitionOfUnity(SAMPLE_POINTS[q], DERIVATIVES[0]);
  }

  lemma {:induction false} SamplesHaveUnitShapes(jacobians: seq<real>, k: nat)
    requires k <= |jacobians| == 4 && SamplesFirst(jacobians, k).Success?
    ensures UnitShapes(SamplesFirst(jacobians, k).value.samples)
  {
    if k > 0 {
      SamplesHaveUnitShapes(jacobians, k - 1);
      UnitShape(k - 1);
    }
  }

  /** On every accepted element, curved ones included, the nodal weights add up
      to the volume: no load is lost or invented. */
  lemma LoadIsConserved(points: seq<Vec3>, samples: seq<Sample>)
    requires QuadraticTetraVolumeSamples(points) == Success(samples)
    ensures UnitShapes(samples) && QuadraticTetraVolume(points) == Success(NodalTotal(samples, |ONES|))
  {
    SamplesHaveUnitShapes(Jacobians(points), 4);
    NodalWeightsSum(samples);
  }

  // ---------------------------------------------------------------- translation

  function Shifted(v: seq<real>, c: real): (r: seq<real>)
    ensures |r| == |v|
  {
    seq(|v|, i requires 0 <= i < |v| => v[i] + c)
  }

  lemma ShiftedTerm(v: real, c: real, x: real, sum: real, one: real)
    requires one == 1.0
    ensures (v + c) * x == v * x + c * x
    ensures c * (sum + one * x) == c * sum + c * x
  {
  }

  lemma {:induction false} ShiftedSum(v: seq<real>, c: real, w: seq<real>, n: nat)
    requires n <= |v| == |w| == |ONES|
    ensures WeightedSum(Shifted(v, c), w, n) == WeightedSum(v, w, n) + c * WeightedSum(ONES, w, n)
  {
    if n > 0 {
      ShiftedSum(v, c, w, n - 1);
      ShiftedTerm(v[n - 1], c, w[n - 1], WeightedSum(ONES, w, n - 1), ONES[n - 1]);
    }
  }

  function Translated(points: seq<Vec3>, t: Vec3): (r: seq<Vec3>)
    ensures |r| == |points|
  {
    seq(|points|, i requires 0 <= i < |points| => Vec3(points[i].x + t.x, points[i].y + t.y, points[i].z + t.z))
  }

  lemma ShiftedCoordinates(points: seq<Vec3>, t: Vec3)
    ensures Xs(Translated(points, t)) == Shifted(Xs(points), t.x)
    ensures Ys(Translated(points, t)) == Shifted(Ys(points), t.y)
    ensures Zs(Translated(points, t)) == Shifted(Zs(points), t.z)
  {
  }

  lemma TranslatedColumn(points: seq<Vec3>, t: Vec3, l: seq<real>, axis: nat)
    requires |points| == 10 && |l| == 4 && l[0] + l[1] + l[2] + l[3] == 1.0 && axis < 3
    ensures Interpolate(Translated(points, t), Gradient(l, DERIVATIVES[axis])) ==
      Interpolate(points, Gradient(l, DERIVATIVES[axis]))
  {
    var g, moved := Gradient(l, DERIVATIVES[axis]), Translated(points, t);
    PartitionOfUnity(l, DERIVATIVES[axis]);
    ShiftedCoordinates(points, t);
    ShiftedSum(Xs(points), t.x, g, |points|);
    ShiftedSum(Ys(points), t.y, g, |points|);
    ShiftedSum(Zs(points), t.z, g, |points|);
  }

  /** Where an element lies does not matter, curved or not. */
  lemma TranslationInvariance(points: seq<Vec3>, t: Vec3)
    ensures QuadraticTetraVolumeSamples(Translated(points, t)) == QuadraticTetraVolumeSamples(points)
  {
    if |points| == 10 {
      forall k | 0 <= k < 4
        ensures Jacobian(Translated(points, t), SAMPLE_POINTS[k]) == Jacobian(points, SAMPLE_POINTS[k])
      {
        SamplePointsSum(k);
        TranslatedColumn(points, t, SAMPLE_POINTS[k], 0);
        TranslatedColumn(points, t, SAMPLE_POINTS[k], 1);
        TranslatedColumn(points, t, SAMPLE_POINTS[k], 2);
      }
      assert Jacobians(Translated(points, t)) == Jacobians(points);
    }
  }

  // ---------------------------------------------------------------- the integration as run

  method ShapeFunctionsAt(l: seq<real>) returns (r: seq<real>)
    requires |l| == 4
    ensures r == ShapeFunctions(l)
  {
    var shape := new real[10];
    for i := 0 to 4
      invariant forall k :: 0 <= k < i ==> shape[k] == ShapeFunction(l, k)
    {
      shape[i] := l[i] * (2.0 * l[i] - 1.0);
    }
    for e := 0 to 6
      invariant forall k :: 0 <= k < 4 + e ==> shape[k] == ShapeFunction(l, k)
    {
      shape[4 + e] := 4.0 * l[EDGES[e].0] * l[EDGES[e].1];
    }
    return shape[..];
  }

  method GradientIn(l: seq<real>, d: seq<real>) returns (r: seq<real>)
    requires |l| == |d| == 4
    ensures r == Gradient(l, d)
  {
    var result := new real[10];
    for i := 0 to 4
      invariant forall k :: 0 <= k < i ==> result[k] == GradientAt(l, d, k)
    {
      result[i] := (4.0 * l[i] - 1.0) * d[i];
    }
    for e := 0 to 6
      invariant forall k :: 0 <= k < 4 + e ==> result[k] == GradientAt(l, d, k)
    {
      var (i, j) := EDGES[e];
      result[4 + e] := 4.0 * (d[i] * l[j] + l[i] * d[j]);
    }
    return result[..];
  }

  method JacobianAt(points: seq<Vec3>, l: seq<real>) returns (r: real)
    requires |points| == 10 && |l| == 4
    ensures r == Jacobian(points, l)
  {
    var g0 := GradientIn(l, DERIVATIVES[0]);
    var g1 := GradientIn(l, DERIVATIVES[1]);
    var g2 := GradientIn(l, DERIVATIVES[2]);
    return Determinant(Interpolate(points, g0), Interpolate(points, g1), Interpolate(points, g2));
  }

  /** One quadrature point: a further sample, or the reason to refuse the element. */
  method TakeSample(ghost jacobians: seq<real>, jacobian: real, q: nat, done: Integration)
    returns (r: Result<Integration, MeshError>)
    requires q < |jacobians| == 4 && SamplesFirst(jacobians, q) == Success(done) && jacobian == jacobians[q]
    ensures r == SamplesFirst(jacobians, q + 1)
  {
    if Abs(jacobian) <= THRESHOLD {
      return Failure(Singular);
    }
    var sign := Sign(jacobian);
    if done.orientation != 0 && sign != done.orientation {
      return Failure(Inverted);
    }
    var shapeFunctions := ShapeFunctionsAt(SAMPLE_POINTS[q]);
    NextSample(jacobians, q, done);
    return Success(Integration(done.samples + [Sample(Abs(jacobian) / 24.0, shapeFunctions)], sign));
  }

  method VolumeSamples(points: seq<Vec3>) returns (r: Result<seq<Sample>, MeshError>)
    ensures r == QuadraticTetraVolumeSamples(points)
  {
    if |points| != 10 {
      return Failure(Unsupported);
    }
    ghost var jacobians := Jacobians(points);
    var done := Integration([], 0);
    for q := 0 to 4
      invariant SamplesFirst(jacobians, q) == Success(done)
    {
      var jacobian := JacobianAt(points, SAMPLE_POINTS[q]);
      var next := TakeSample(jacobians, jacobian, q, done);
      if next.Failure? {
        FailureStays(jacobians, q + 1, 4);
        return Failure(next.error);
      }
      done := next.value;
    }
    return Success(done.samples);
  }
}
