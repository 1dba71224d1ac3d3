/** What the record of a composed model says of its single elements: the mean and the
    least of all their values, and the shares of their volumes. */
module QualityLaws {
  import opened Wrappers
  import opened FemModel
  import opened Composition
  import opened ComposedModel
  import opened Quality

  function Sum(values: seq<real>): real {
    if values == [] then 0.0 else Sum(values[..|values| - 1]) + values[|values| - 1]
  }

  function Together(groups: seq<seq<real>>): seq<real> {
    if groups == [] then [] else Together(groups[..|groups| - 1]) + groups[|groups| - 1]
  }

  lemma {:induction false} SumOfTwo(a: seq<real>, b: seq<real>)
    ensures Sum(a + b) == Sum(a) + Sum(b)
  {
    if b == [] {
      assert a + b == a;
    } else {
      assert (a + b)[..|a + b| - 1] == a + b[..|b| - 1];
      SumOfTwo(a, b[..|b| - 1]);
    }
  }

  /** The mean of some values, times their number, is their sum. */
  ghost predicate MeanOf(mean: real, values: seq<real>) {
    values != [] && mean * |values| as real == Sum(values)
  }

  ghost predicate LeastOf(least: real, values: seq<real>) {
    && (exists k :: 0 <= k < |values| && values[k] == least)
    && (forall k :: 0 <= k < |values| ==> least <= values[k])
  }

  /** The figures are those of the given element values. */
  ghost predicate Summarizes(minimum: real, average: real, elementCount: nat, values: seq<real>) {
    |values| == elementCount && MeanOf(average, values) && LeastOf(minimum, values)
  }

  ghost predicate AllSummarize(records: seq<DomainQuality>, groups: seq<seq<real>>) {
    && |groups| == |records|
    && forall d :: 0 <= d < |records| ==>
      Summarizes(records[d].minimum, records[d].average, records[d].elementCount, groups[d])
  }

  lemma {:induction false} WeightedIsSum(records: seq<DomainQuality>, groups: seq<seq<real>>)
    requires AllSummarize(records, groups)
    ensures WeightedAverages(records) == Sum(Together(groups)) && ElementCount(records) == |Together(groups)|
  {
    if records != [] {
      var n := |records| - 1;
      WeightedIsSum(records[..n], groups[..n]);
      SumOfTwo(Together(groups[..n]), groups[n]);
      assert Summarizes(records[n].minimum, records[n].average, records[n].elementCount, groups[n]);
    }
  }

  lemma LeastOfTwo(a: real, u: seq<real>, b: real, v: seq<real>)
    requires LeastOf(a, u) && LeastOf(b, v)
    ensures LeastOf(if b < a then b else a, u + v)
  {
    var least := if b < a then b else a;
    var i :| 0 <= i < |u| && u[i] == a;
    var k :| 0 <= k < |v| && v[k] == b;
    assert (u + v)[if b < a then |u| + k else i] == least;
  }

  lemma {:induction false} MinimumIsLeastOfAll(records: seq<DomainQuality>, groups: seq<seq<real>>)
    requires AllSummarize(records, groups) && records != []
    ensures LeastOf(Minimum(records), Together(groups))
  {
    var n := |records| - 1;
    assert Summarizes(records[n].minimum, records[n].average, records[n].elementCount, groups[n]);
    if n == 0 {
      assert Together(groups[..0]) == [] && [] + groups[0] == groups[0];
    } else {
      MinimumIsLeastOfAll(records[..n], groups[..n]);
      LeastOfTwo(Minimum(records[..n]), Together(groups[..n]), records[n].minimum, groups[n]);
    }
  }

  lemma MeanByDivision(total: real, count: nat, values: seq<real>)
    requires count > 0 && count == |values| && total == Sum(values)
    ensures MeanOf(total / count as real, values)
  {
  }

  /** The average of the record is the mean over all elements and its minimum the least
      of all, if every domain's figures are those of its own elements. */
  lemma AveragesAllElements(records: seq<DomainQuality>, groups: seq<seq<real>>)
    requires AllSummarize(records, groups) && records != []
    ensures Average(records, |Together(groups)|).Some?
    ensures Summarizes(Minimum(records), Average(records, |Together(groups)|).value, ElementCount(records),
      Together(groups))
  {
    WeightedIsSum(records, groups);
    MinimumIsLeastOfAll(records, groups);
    MeanByDivision(WeightedAverages(records), |Together(groups)|, Together(groups));
  }

  // ---------------------------------------------------------------- volumes

  function CadVolumes(request: Request, k: nat): seq<real>
    requires k <= |request.domains|
  {
    seq(k, d requires 0 <= d < k => request.domains[d].cadVolume)
  }

  function MeshVolumes(request: Request, supplied: map<string, Mesh>, k: nat): seq<real>
    requires Supplies(request, supplied) && k <= |request.domains|
  {
    seq(k, d requires 0 <= d < k => supplied[request.domains[d].domainId].quality.meshVolume)
  }

  lemma {:induction false} VolumesAreSums(records: seq<DomainQuality>, cad: seq<real>, mesh: seq<real>)
    requires |cad| == |mesh| == |records|
    requires forall d :: 0 <= d < |records| ==> records[d].cadVolume == cad[d] && records[d].meshVolume == mesh[d]
    ensures CadVolume(records) == Sum(cad) && MeshVolume(records) == Sum(mesh)
  {
    if records != [] {
      var n := |records| - 1;
      VolumesAreSums(records[..n], cad[..n], mesh[..n]);
    }
  }

  /** The error is the gap between the volumes as a share of the first. */
  ghost predicate ShareOf(error: real, cad: real, mesh: real) {
    error * cad == if mesh < cad then cad - mesh else mesh - cad
  }

  lemma ErrorIsShare(mesh: real, cad: real)
    requires cad > 0.0
    ensures ShareOf(RelativeError(mesh, cad), cad, mesh)
  {
  }

  // ---------------------------------------------------------------- the record of a composition

  /** Every mesh's own figures are those of the given element values. */
  ghost predicate MeshesSummarize(request: Request, supplied: map<string, Mesh>, groups: seq<seq<real>>)
    requires Supplies(request, supplied)
  {
    && |groups| == |request.domains|
    && forall d :: 0 <= d < |request.domains| ==>
      var q := supplied[request.domains[d].domainId].quality;
      Summarizes(q.minimum, q.average, q.elementCount, groups[d])
  }

  lemma RecountedFigures(request: Request, supplied: map<string, Mesh>, regions: seq<DomainRegion>)
    requires Supplies(request, supplied) && HasVolumes(request)
    requires HasRegions(Records(request, supplied, |request.domains|), regions)
    ensures var records := Recounted(Records(request, supplied, |request.domains|), regions);
      && |records| == |request.domains|
      && forall d :: 0 <= d < |records| ==>
        && records[d].cadVolume == CadVolumes(request, |request.domains|)[d]
        && records[d].meshVolume == MeshVolumes(request, supplied, |request.domains|)[d]
        && ShareOf(records[d].volumeError, records[d].cadVolume, records[d].meshVolume)
  {
    var records := Recounted(Records(request, supplied, |request.domains|), regions);
    forall d | 0 <= d < |records|
      ensures ShareOf(records[d].volumeError, records[d].cadVolume, records[d].meshVolume)
    {
      ErrorIsShare(records[d].meshVolume, records[d].cadVolume);
    }
  }

  lemma RecountedSummarize(request: Request, supplied: map<string, Mesh>, regions: seq<DomainRegion>,
      groups: seq<seq<real>>)
    requires Supplies(request, supplied) && HasVolumes(request) && MeshesSummarize(request, supplied, groups)
    requires HasRegions(Records(request, supplied, |request.domains|), regions)
    ensures AllSummarize(Recounted(Records(request, supplied, |request.domains|), regions), groups)
  {
    var records := Recounted(Records(request, supplied, |request.domains|), regions);
    forall d | 0 <= d < |records|
      ensures Summarizes(records[d].minimum, records[d].average, records[d].elementCount, groups[d])
    {
      var q := supplied[request.domains[d].domainId].quality;
      assert Summarizes(q.minimum, q.average, q.elementCount, groups[d]);
    }
  }

  /** The record of a composed model: the mean and the least value of all elements of all
      meshes, the sums of the volumes, and the gaps between them as shares. */
  lemma RecordOfAllElements(request: Request, meshed: seq<MeshedDomain>, o: Composed, groups: seq<seq<real>>)
    requires Composable(request, meshed) && Compose(request, meshed) == Success(o) && HasVolumes(request)
    requires request.domains != []
    requires MappingAccepted(request, meshed) ==>
      AllPassGate(request, Supplied(meshed)) && MeshesSummarize(request, Supplied(meshed), groups)
    ensures MappingAccepted(request, meshed)
    ensures var q, domains := QualityOf(request, meshed, o), |request.domains|;
      && q.average.Some? && Summarizes(q.minimum, q.average.value, |o.elements|, Together(groups))
      && q.nodeCount == |o.nodes| && q.elementCount == |o.elements| && q.facetCount == |o.facets|
      && q.cadVolume == Sum(CadVolumes(request, domains))
      && q.meshVolume == Sum(MeshVolumes(request, Supplied(meshed), domains))
      && ShareOf(q.volumeError, q.cadVolume, q.meshVolume) && |q.perDomain| == domains
      && forall d :: 0 <= d < domains ==>
        ShareOf(q.perDomain[d].volumeError, q.perDomain[d].cadVolume, q.perDomain[d].meshVolume)
  {
    RecordsOfComposition(request, meshed, o);
    var supplied := Supplied(meshed);
    var records := Recounted(Records(request, supplied, |request.domains|), o.domainRegions);
    RecountedFigures(request, supplied, o.domainRegions);
    RecountedSummarize(request, supplied, o.domainRegions, groups);
    WeightedIsSum(records, groups);
    AveragesAllElements(records, groups);
    VolumesAreSums(records, CadVolumes(request, |request.domains|), MeshVolumes(request, supplied, |request.domains|));
    TotalsPositive(records);
    ErrorIsShare(MeshVolume(records), CadVolume(records));
  }
}
