/** The quality record of a composed model: minimum, weighted average and volume
    error over the domains, and how they are bounded by the domains' own. */
module Quality {
  import opened Wrappers
  import opened TetraGeometry
  import opened FemModel
  import opened Ascending
  import opened Compaction
  import opened WeldedModel
  import opened NodeBalance
  import opened SharedTopology
  import opened Composition
  import opened ComposedModel

  /** The record of one domain. */
  datatype DomainQuality = DomainQuality(
    domainId: string, nodeCount: nat, elementCount: nat, cadVolume: real, meshVolume: real, volumeError: real,
    minimum: real, average: real)

  const MAXIMUM_VOLUME_ERROR := 0.05

  function RelativeError(mesh: real, cad: real): real
    requires cad > 0.0
  {
    Abs(mesh - cad) / cad
  }

  /** The emptiness, count and quality gates of a local mesh. */
  ghost predicate PassesGate(mesh: Mesh, minimumQuality: real) {
    var q := mesh.quality;
    && |mesh.nodes| > 0 && |mesh.elements| > 0
    && q.invalidElementCount == 0 && q.nodeCount == |mesh.nodes|
    && q.elementCount == |mesh.elements| && q.facetCount == |mesh.facets|
    && minimumQuality <= q.minimum <= q.average && q.volumeRelativeError <= MAXIMUM_VOLUME_ERROR
  }

  /** What the gates leave of a domain's record; the error is computed anew, from
      the volume of the CAD shape, and the gate says nothing about it. */
  ghost predicate Gated(q: DomainQuality) {
    && q.elementCount > 0 && q.minimum <= q.average && q.cadVolume > 0.0
    && q.volumeError == RelativeError(q.meshVolume, q.cadVolume)
  }

  ghost predicate AllGated(domains: seq<DomainQuality>) {
    forall d :: 0 <= d < |domains| ==> Gated(domains[d])
  }

  function ElementCount(domains: seq<DomainQuality>): nat {
    if domains == [] then 0 else ElementCount(domains[..|domains| - 1]) + domains[|domains| - 1].elementCount
  }

  function WeightedAverages(domains: seq<DomainQuality>): real {
    if domains == [] then 0.0
    else
      var last := domains[|domains| - 1];
      WeightedAverages(domains[..|domains| - 1]) + last.average * last.elementCount as real
  }

  function CadVolume(domains: seq<DomainQuality>): real {
    if domains == [] then 0.0 else CadVolume(domains[..|domains| - 1]) + domains[|domains| - 1].cadVolume
  }

  function MeshVolume(domains: seq<DomainQuality>): real {
    if domains == [] then 0.0 else MeshVolume(domains[..|domains| - 1]) + domains[|domains| - 1].meshVolume
  }

  function Minimum(domains: seq<DomainQuality>): real
    requires domains != []
  {
    var last := domains[|domains| - 1].minimum;
    if |domains| == 1 then last
    else
      var before := Minimum(domains[..|domains| - 1]);
      if last < before then last else before
  }

  /** The quality of the composed model; an average over no elements is not a finite number. */
  datatype ModelQuality = ModelQuality(
    minimum: real, average: Option<real>, nodeCount: nat, elementCount: nat, facetCount: nat,
    cadVolume: real, meshVolume: real, volumeError: real, perDomain: seq<DomainQuality>)

  // ---------------------------------------------------------------- bounds

  ghost predicate AveragesBelow(domains: seq<DomainQuality>, bound: real) {
    forall d :: 0 <= d < |domains| ==> domains[d].average <= bound
  }

  ghost predicate MinimaAbove(domains: seq<DomainQuality>, bound: real) {
    forall d :: 0 <= d < |domains| ==> bound <= domains[d].minimum
  }

  ghost predicate ErrorsBelow(domains: seq<DomainQuality>, bound: real) {
    forall d :: 0 <= d < |domains| ==> domains[d].volumeError <= bound
  }

  lemma AddAtMost(sum: real, n: real, average: real, count: real, bound: real)
    requires sum <= bound * n && average <= bound && count >= 0.0
    ensures sum + average * count <= bound * (n + count)
  {
  }

  lemma AddAtLeast(sum: real, n: real, average: real, count: real, bound: real)
    requires sum >= bound * n && average >= bound && count >= 0.0
    ensures sum + average * count >= bound * (n + count)
  {
  }

  lemma {:induction false} AverageAtMost(domains: seq<DomainQuality>, bound: real)
    requires AveragesBelow(domains, bound)
    ensures WeightedAverages(domains) <= bound * ElementCount(domains) as real
  {
    if domains != [] {
      var init, last := domains[..|domains| - 1], domains[|domains| - 1];
      AverageAtMost(init, bound);
      AddAtMost(WeightedAverages(init), ElementCount(init) as real, last.average, last.elementCount as real, bound);
    }
  }

  lemma {:induction false} AverageAtLeast(domains: seq<DomainQuality>, bound: real)
    requires AllGated(domains) && MinimaAbove(domains, bound)
    ensures WeightedAverages(domains) >= bound * ElementCount(domains) as real
  {
    if domains != [] {
      var init, last := domains[..|domains| - 1], domains[|domains| - 1];
      AverageAtLeast(init, bound);
      assert Gated(last) && bound <= last.minimum;
      AddAtLeast(WeightedAverages(init), ElementCount(init) as real, last.average, last.elementCount as real, bound);
    }
  }

  lemma {:induction false} TotalsPositive(domains: seq<DomainQuality>)
    requires AllGated(domains)
    ensures CadVolume(domains) >= 0.0
    ensures domains != [] ==> ElementCount(domains) > 0 && CadVolume(domains) > 0.0
  {
    if domains != [] {
      TotalsPositive(domains[..|domains| - 1]);
      assert Gated(domains[|domains| - 1]);
    }
  }

  lemma {:induction false} MinimumIsLeast(domains: seq<DomainQuality>)
    requires domains != []
    ensures MinimaAbove(domains, Minimum(domains))
    ensures exists d :: 0 <= d < |domains| && domains[d].minimum == Minimum(domains)
  {
    var init, last := domains[..|domains| - 1], domains[|domains| - 1];
    if |domains| == 1 {
      assert domains[0].minimum == Minimum(domains);
    } else {
      MinimumIsLeast(init);
      var d :| 0 <= d < |init| && init[d].minimum == Minimum(init);
      assert domains[d].minimum == Minimum(init);
      forall e | 0 <= e < |domains| ensures Minimum(domains) <= domains[e].minimum {
        if e < |init| {
          assert domains[e] == init[e];
        }
      }
    }
  }

  /** The volumes differ by at most the given share of the CAD volume. */
  ghost predicate Bounded(mesh: real, cad: real, bound: real) {
    Abs(mesh - cad) <= bound * cad
  }

  lemma ErrorTerm(mesh: real, cad: real, bound: real)
    requires cad > 0.0 && RelativeError(mesh, cad) <= bound
    ensures Bounded(mesh, cad, bound)
  {
  }

  lemma NoError(bound: real)
    ensures Bounded(0.0, 0.0, bound)
  {
  }

  lemma AddError(mesh: real, cad: real, m: real, c: real, bound: real)
    requires Bounded(mesh, cad, bound) && Bounded(m, c, bound)
    ensures Bounded(mesh + m, cad + c, bound)
  {
  }

  lemma {:induction false} ErrorBound(domains: seq<DomainQuality>, bound: real)
    requires AllGated(domains) && ErrorsBelow(domains, bound)
    ensures Bounded(MeshVolume(domains), CadVolume(domains), bound)
  {
    if domains == [] {
      NoError(bound);
    } else {
      var init, last := domains[..|domains| - 1], domains[|domains| - 1];
      ErrorBound(init, bound);
      assert Gated(last);
      ErrorTerm(last.meshVolume, last.cadVolume, bound);
      AddError(MeshVolume(init), CadVolume(init), last.meshVolume, last.cadVolume, bound);
    }
  }

  lemma QuotientAtMost(n: real, d: real, bound: real)
    requires d > 0.0 && n <= bound * d
    ensures n / d <= bound
  {
    var q := n / d;
    assert n == q * d;
    if q > bound {
      assert (q - bound) * d > 0.0;
    }
  }

  lemma QuotientAtLeast(n: real, d: real, bound: real)
    requires d > 0.0 && n >= bound * d
    ensures n / d >= bound
  {
    var q := n / d;
    assert n == q * d;
    if q < bound {
      assert (bound - q) * d > 0.0;
    }
  }

  // ---------------------------------------------------------------- the sums of gated records

  function Average(domains: seq<DomainQuality>, elementCount: nat): Option<real> {
    if elementCount == 0 then None else Some(WeightedAverages(domains) / elementCount as real)
  }

  function VolumeError(domains: seq<DomainQuality>): real
    requires CadVolume(domains) > 0.0
  {
    RelativeError(MeshVolume(domains), CadVolume(domains))
  }

  /** An average over as many elements as the records count lies between every
      lower bound on the domains' minima and every upper bound on their averages. */
  lemma AverageBetween(domains: seq<DomainQuality>, elementCount: nat, lower: real, upper: real)
    requires domains != [] && AllGated(domains) && elementCount == ElementCount(domains)
    requires MinimaAbove(domains, lower) && AveragesBelow(domains, upper)
    ensures Average(domains, elementCount).Some? && lower <= Average(domains, elementCount).value <= upper
  {
    TotalsPositive(domains);
    AverageAtLeast(domains, lower);
    AverageAtMost(domains, upper);
    QuotientAtLeast(WeightedAverages(domains), elementCount as real, lower);
    QuotientAtMost(WeightedAverages(domains), elementCount as real, upper);
  }

  /** The volume error is at most the largest of the domains'. */
  lemma ErrorAtMost(domains: seq<DomainQuality>, bound: real)
    requires domains != [] && AllGated(domains) && ErrorsBelow(domains, bound)
    ensures CadVolume(domains) > 0.0 && VolumeError(domains) <= bound
  {
    TotalsPositive(domains);
    ErrorBound(domains, bound);
    QuotientAtMost(Abs(MeshVolume(domains) - CadVolume(domains)), CadVolume(domains), bound);
  }

  lemma MinimumBelowAverage(domains: seq<DomainQuality>)
    requires domains != [] && AllGated(domains)
    ensures Average(domains, ElementCount(domains)).Some? &&
      Minimum(domains) <= Average(domains, ElementCount(domains)).value
  {
    MinimumIsLeast(domains);
    LargestAverageExists(domains);
    var upper :| AveragesBelow(domains, upper);
    AverageBetween(domains, ElementCount(domains), Minimum(domains), upper);
  }

  lemma {:induction false} LargestAverageExists(domains: seq<DomainQuality>)
    ensures exists bound :: AveragesBelow(domains, bound)
  {
    if domains == [] {
      assert AveragesBelow(domains, 0.0);
    } else {
      var init, last := domains[..|domains| - 1], domains[|domains| - 1];
      LargestAverageExists(init);
      var before :| AveragesBelow(init, before);
      var bound := if before < last.average then last.average else before;
      forall d | 0 <= d < |domains| ensures domains[d].average <= bound {
        if d < |init| {
          assert init[d].average <= before;
        }
      }
      assert AveragesBelow(domains, bound);
    }
  }

  // ---------------------------------------------------------------- the records of a composition

  function RecordOf(d: Domain, mesh: Mesh): DomainQuality
    requires d.cadVolume > 0.0
  {
    var q := mesh.quality;
    DomainQuality(d.domainId, q.nodeCount, q.elementCount, d.cadVolume, q.meshVolume,
                  RelativeError(q.meshVolume, d.cadVolume), q.minimum, q.average)
  }

  /** Request validation demands positive volumes. */
  ghost predicate HasVolumes(request: Request) {
    forall d :: 0 <= d < |request.domains| ==> request.domains[d].cadVolume > 0.0
  }

  /** What the loop over the domains records, for the first `k` of them. */
  function Records(request: Request, supplied: map<string, Mesh>, k: nat): (r: seq<DomainQuality>)
    requires Supplies(request, supplied) && HasVolumes(request) && k <= |request.domains|
    ensures |r| == k
  {
    seq(k, d requires 0 <= d < k => RecordOf(request.domains[d], supplied[request.domains[d].domainId]))
  }

  function FindRegion(regions: seq<DomainRegion>, domainId: string, from: nat): (r: Option<nat>)
    requires from <= |regions|
    ensures r.Some? ==> from <= r.value < |regions| && regions[r.value].domainId == domainId
    ensures r.None? ==> forall k :: from <= k < |regions| ==> regions[k].domainId != domainId
    decreases |regions| - from
  {
    if from == |regions| then None
    else if regions[from].domainId == domainId then Some(from)
    else FindRegion(regions, domainId, from + 1)
  }

  ghost predicate HasRegions(records: seq<DomainQuality>, regions: seq<DomainRegion>) {
    forall d :: 0 <= d < |records| ==> FindRegion(regions, records[d].domainId, 0).Some?
  }

  /** The node counts, taken anew from the domain regions once these are final. */
  function Recounted(records: seq<DomainQuality>, regions: seq<DomainRegion>): (r: seq<DomainQuality>)
    requires HasRegions(records, regions)
    ensures |r| == |records|
  {
    seq(|records|, d requires 0 <= d < |records| =>
      records[d].(nodeCount := |regions[FindRegion(regions, records[d].domainId, 0).value].nodeIndices|))
  }

  function Summary(records: seq<DomainQuality>, o: Composed): ModelQuality
    requires records != [] && CadVolume(records) > 0.0
  {
    ModelQuality(Minimum(records), Average(records, |o.elements|),
                 |o.nodes|, |o.elements|, |o.facets|,
                 CadVolume(records), MeshVolume(records), VolumeError(records), records)
  }

  ghost predicate AllPassGate(request: Request, supplied: map<string, Mesh>)
    requires Supplies(request, supplied)
  {
    forall d :: 0 <= d < |request.domains| ==> PassesGate(supplied[request.domains[d].domainId], request.minimumQuality)
  }

  /** Every record lists its own domain's elements and nodes, as the validation of
      the model demands. */
  ghost predicate RecordsMatch(request: Request, records: seq<DomainQuality>, regions: seq<DomainRegion>) {
    && |records| == |regions| == |request.domains|
    && forall d :: 0 <= d < |records| ==>
      && records[d].domainId == regions[d].domainId == request.domains[d].domainId
      && records[d].nodeCount == |regions[d].nodeIndices| && records[d].elementCount == |regions[d].elementIndices|
      && records[d].cadVolume == request.domains[d].cadVolume
  }

  function NodeCount(domains: seq<DomainQuality>): nat {
    if domains == [] then 0 else NodeCount(domains[..|domains| - 1]) + domains[|domains| - 1].nodeCount
  }

  // ---------------------------------------------------------------- what the weld leaves alone

  /** Same domains with the same elements, same owners, same boundary regions. */
  ghost predicate SameDomains(m: Composed, o: Composed) {
    && |o.elements| == |m.elements| && |o.facets| == |m.facets| && |o.domainRegions| == |m.domainRegions|
    && o.elementDomainIds == m.elementDomainIds && o.facetDomainIds == m.facetDomainIds
    && o.boundaryRegions == m.boundaryRegions
    && forall d :: 0 <= d < |m.domainRegions| ==>
      && o.domainRegions[d].domainId == m.domainRegions[d].domainId
      && o.domainRegions[d].elementIndices == m.domainRegions[d].elementIndices
  }

  lemma CompactionKeepsDomains(m: Composed, weld: map<nat, nat>)
    requires Compactable(m, weld)
    ensures SameDomains(m, Compacted(m, weld))
  {
  }

  lemma CompositionKeepsDomains(request: Request, meshed: seq<MeshedDomain>, o: Composed) returns (m: Composed)
    requires Composable(request, meshed) && Compose(request, meshed) == Success(o)
    ensures MappingAccepted(request, meshed)
    ensures ComposeFirst(request, Supplied(meshed), |request.domains|) == Success(m) && SameDomains(m, o)
  {
    if SharedInOrder(request.interactions) != [] {
      var st;
      m, st := WeldedComposition(request, meshed, o);
      CompactionKeepsDomains(m, st.weld);
    } else {
      UnweldedComposition(request, meshed, o);
      m := o;
    }
  }

  lemma OneRecordMore(request: Request, supplied: map<string, Mesh>, k: nat)
    requires Supplies(request, supplied) && HasVolumes(request) && 0 < k <= |request.domains|
    ensures ElementCount(Records(request, supplied, k)) ==
      ElementCount(Records(request, supplied, k - 1)) + supplied[request.domains[k - 1].domainId].quality.elementCount
  {
    assert Records(request, supplied, k)[..k - 1] == Records(request, supplied, k - 1);
  }

  /** Every domain lists as many elements as its mesh has. */
  lemma {:induction false} DomainsInTurn(request: Request, supplied: map<string, Mesh>, k: nat)
    requires ValidRequest(request) && Supplies(request, supplied)
    requires k <= |request.domains| && ComposeFirst(request, supplied, k).Success?
    ensures var m := ComposeFirst(request, supplied, k).value;
      && |m.domainRegions| == k
      && forall d :: 0 <= d < k ==>
        && m.domainRegions[d].domainId == request.domains[d].domainId
        && |m.domainRegions[d].elementIndices| == |supplied[request.domains[d].domainId].elements|
  {
    if k > 0 {
      DomainsInTurn(request, supplied, k - 1);
    }
  }

  /** If the meshes passed their gates their records count the elements of the model. */
  lemma {:induction false} ElementsAddUp(request: Request, supplied: map<string, Mesh>, k: nat)
    requires ValidRequest(request) && Supplies(request, supplied) && HasVolumes(request) &&
      AllPassGate(request, supplied)
    requires k <= |request.domains| && ComposeFirst(request, supplied, k).Success?
    ensures ElementCount(Records(request, supplied, k)) == |ComposeFirst(request, supplied, k).value.elements|
  {
    if k > 0 {
      ElementsAddUp(request, supplied, k - 1);
      OneRecordMore(request, supplied, k);
      assert PassesGate(supplied[request.domains[k - 1].domainId], request.minimumQuality);
    }
  }

  lemma {:induction false} FindsOwnRegion(regions: seq<DomainRegion>, d: nat, from: nat)
    requires Distinct(DomainIds(regions)) && from <= d < |regions|
    ensures FindRegion(regions, regions[d].domainId, from) == Some(d)
    decreases d - from
  {
    if from < d {
      assert DomainIds(regions)[from] != DomainIds(regions)[d];
      FindsOwnRegion(regions, d, from + 1);
    }
  }

  // ---------------------------------------------------------------- the record of a successful composition

  lemma SameSums(a: seq<DomainQuality>, b: seq<DomainQuality>)
    requires |a| == |b| && forall d :: 0 <= d < |a| ==> a[d].elementCount == b[d].elementCount
    ensures ElementCount(a) == ElementCount(b)
  {
    if a != [] {
      SameSums(a[..|a| - 1], b[..|b| - 1]);
    }
  }

  lemma {:induction false} NodesListed(records: seq<DomainQuality>, regions: seq<DomainRegion>)
    requires |records| == |regions|
    requires forall d :: 0 <= d < |records| ==> records[d].nodeCount == |regions[d].nodeIndices|
    ensures NodeCount(records) == ListedNodes(regions)
  {
    if records != [] {
      NodesListed(records[..|records| - 1], regions[..|regions| - 1]);
    }
  }

  lemma ComposedIdsDistinct(request: Request, o: Composed)
    requires ValidRequest(request) && |o.domainRegions| == |request.domains|
    requires forall d :: 0 <= d < |request.domains| ==> o.domainRegions[d].domainId == request.domains[d].domainId
    ensures Distinct(DomainIds(o.domainRegions))
  {
  }

  /** The domains of the composed model are those of the request, in order, with as
      many elements as their meshes have. */
  ghost predicate ListsDomains(request: Request, supplied: map<string, Mesh>, o: Composed)
    requires Supplies(request, supplied)
  {
    && |o.domainRegions| == |request.domains|
    && forall d :: 0 <= d < |request.domains| ==>
      && o.domainRegions[d].domainId == request.domains[d].domainId
      && |o.domainRegions[d].elementIndices| == |supplied[request.domains[d].domainId].elements|
  }

  lemma CompositionListsDomains(request: Request, meshed: seq<MeshedDomain>, o: Composed)
    requires Composable(request, meshed) && Compose(request, meshed) == Success(o)
    ensures MappingAccepted(request, meshed) && ListsDomains(request, Supplied(meshed), o)
    ensures HasVolumes(request) && AllPassGate(request, Supplied(meshed)) ==>
      ElementCount(Records(request, Supplied(meshed), |request.domains|)) == |o.elements|
  {
    var m := CompositionKeepsDomains(request, meshed, o);
    DomainsInTurn(request, Supplied(meshed), |request.domains|);
    if HasVolumes(request) && AllPassGate(request, Supplied(meshed)) {
      ElementsAddUp(request, Supplied(meshed), |request.domains|);
    }
  }

  /** Each record finds its own domain's region. */
  lemma RecordsFindRegions(request: Request, supplied: map<string, Mesh>, o: Composed)
    requires ValidRequest(request) && Supplies(request, supplied) && HasVolumes(request) &&
      ListsDomains(request, supplied, o)
    ensures var before := Records(request, supplied, |request.domains|);
      && HasRegions(before, o.domainRegions)
      && forall d :: 0 <= d < |before| ==> FindRegion(o.domainRegions, before[d].domainId, 0) == Some(d)
  {
    ComposedIdsDistinct(request, o);
    var before := Records(request, supplied, |request.domains|);
    forall d | 0 <= d < |before| ensures FindRegion(o.domainRegions, before[d].domainId, 0) == Some(d) {
      FindsOwnRegion(o.domainRegions, d, 0);
    }
  }

  lemma {:induction false} VolumesPositive(domains: seq<DomainQuality>)
    requires forall d :: 0 <= d < |domains| ==> domains[d].cadVolume > 0.0
    ensures CadVolume(domains) >= 0.0 && (domains != [] ==> CadVolume(domains) > 0.0)
  {
    if domains != [] {
      VolumesPositive(domains[..|domains| - 1]);
    }
  }

  /** Whatever the meshes say of themselves, the model they compose to has a record. */
  lemma RecordExists(request: Request, meshed: seq<MeshedDomain>, o: Composed)
    requires Composable(request, meshed) && Compose(request, meshed) == Success(o)
    requires request.domains != [] && HasVolumes(request)
    ensures MappingAccepted(request, meshed)
    ensures HasRegions(Records(request, Supplied(meshed), |request.domains|), o.domainRegions)
    ensures CadVolume(Recounted(Records(request, Supplied(meshed), |request.domains|), o.domainRegions)) > 0.0
  {
    CompositionListsDomains(request, meshed, o);
    RecordsFindRegions(request, Supplied(meshed), o);
    VolumesPositive(Recounted(Records(request, Supplied(meshed), |request.domains|), o.domainRegions));
  }

  /** The record of the composed model: that of its domains, with the node counts
      taken from its regions. */
  ghost function QualityOf(request: Request, meshed: seq<MeshedDomain>, o: Composed): ModelQuality
    requires Composable(request, meshed) && Compose(request, meshed) == Success(o)
    requires request.domains != [] && HasVolumes(request)
  {
    RecordExists(request, meshed, o);
    Summary(Recounted(Records(request, Supplied(meshed), |request.domains|), o.domainRegions), o)
  }

  ghost predicate RecordInOrder(request: Request, q: DomainQuality, d: Domain, region: DomainRegion) {
    && q.domainId == region.domainId == d.domainId && q.cadVolume == d.cadVolume
    && q.nodeCount == |region.nodeIndices| && q.elementCount == |region.elementIndices|
    && Gated(q) && request.minimumQuality <= q.minimum
  }

  lemma RecordIsInOrder(request: Request, supplied: map<string, Mesh>, o: Composed, d: nat)
    requires Supplies(request, supplied) && HasVolumes(request) && AllPassGate(request, supplied)
    requires ListsDomains(request, supplied, o) && d < |request.domains|
    ensures var q := RecordOf(request.domains[d], supplied[request.domains[d].domainId]);
      RecordInOrder(request, q.(nodeCount := |o.domainRegions[d].nodeIndices|), request.domains[d], o.domainRegions[d])
  {
    assert PassesGate(supplied[request.domains[d].domainId], request.minimumQuality);
  }

  lemma RecountedInOrder(request: Request, supplied: map<string, Mesh>, o: Composed)
    requires ValidRequest(request) && Supplies(request, supplied) && HasVolumes(request) &&
      AllPassGate(request, supplied)
    requires ListsDomains(request, supplied, o)
    ensures HasRegions(Records(request, supplied, |request.domains|), o.domainRegions)
    ensures var records := Recounted(Records(request, supplied, |request.domains|), o.domainRegions);
      forall d :: 0 <= d < |records| ==> RecordInOrder(request, records[d], request.domains[d], o.domainRegions[d])
  {
    RecordsFindRegions(request, supplied, o);
    var before := Records(request, supplied, |request.domains|);
    forall d | 0 <= d < |before|
      ensures RecordInOrder(request, Recounted(before, o.domainRegions)[d], request.domains[d], o.domainRegions[d])
    {
      RecordIsInOrder(request, supplied, o, d);
    }
  }

  lemma RecordsOfDomains(request: Request, supplied: map<string, Mesh>, o: Composed)
    requires ValidRequest(request) && Supplies(request, supplied) && HasVolumes(request) &&
      AllPassGate(request, supplied)
    requires ListsDomains(request, supplied, o)
    requires ElementCount(Records(request, supplied, |request.domains|)) == |o.elements|
    ensures HasRegions(Records(request, supplied, |request.domains|), o.domainRegions)
    ensures var records := Recounted(Records(request, supplied, |request.domains|), o.domainRegions);
      && RecordsMatch(request, records, o.domainRegions)
      && ElementCount(records) == |o.elements| && NodeCount(records) == ListedNodes(o.domainRegions)
      && AllGated(records) && MinimaAbove(records, request.minimumQuality)
  {
    RecountedInOrder(request, supplied, o);
    var before := Records(request, supplied, |request.domains|);
    SameSums(before, Recounted(before, o.domainRegions));
    NodesListed(Recounted(before, o.domainRegions), o.domainRegions);
  }

  /** The records of the domains are those of their regions, and count the
      elements and nodes of the model. */
  lemma RecordsOfComposition(request: Request, meshed: seq<MeshedDomain>, o: Composed)
    requires Composable(request, meshed) && Compose(request, meshed) == Success(o) && HasVolumes(request)
    requires MappingAccepted(request, meshed) ==> AllPassGate(request, Supplied(meshed))
    ensures MappingAccepted(request, meshed)
    ensures var before := Records(request, Supplied(meshed), |request.domains|);
      HasRegions(before, o.domainRegions) &&
      var records := Recounted(before, o.domainRegions);
      && RecordsMatch(request, records, o.domainRegions)
      && ElementCount(records) == |o.elements| && NodeCount(records) == ListedNodes(o.domainRegions)
      && AllGated(records) && MinimaAbove(records, request.minimumQuality)
  {
    CompositionListsDomains(request, meshed, o);
    RecordsOfDomains(request, Supplied(meshed), o);
  }

  /** If every local mesh passed its gate, the record of the composed model keeps
      the required minimum, averages between that and the largest average of its
      domains, and is off by at most the largest volume error of its domains. */
  lemma QualityOfComposition(request: Request, meshed: seq<MeshedDomain>, o: Composed, upper: real, bound: real)
    requires Composable(request, meshed) && Compose(request, meshed) == Success(o) && HasVolumes(request)
    requires request.domains != []
    requires MappingAccepted(request, meshed) ==> AllPassGate(request, Supplied(meshed))
    ensures MappingAccepted(request, meshed)
    ensures var q := QualityOf(request, meshed, o);
      && q.average.Some? && request.minimumQuality <= q.minimum <= q.average.value
      && (AveragesBelow(q.perDomain, upper) ==> q.average.value <= upper)
      && (ErrorsBelow(q.perDomain, bound) ==> q.volumeError <= bound)
  {
    RecordsOfComposition(request, meshed, o);
    var records := Recounted(Records(request, Supplied(meshed), |request.domains|), o.domainRegions);
    TotalsPositive(records);
    MinimumIsLeast(records);
    MinimumBelowAverage(records);
    if AveragesBelow(records, upper) {
      AverageBetween(records, |o.elements|, request.minimumQuality, upper);
    }
    if ErrorsBelow(records, bound) {
      ErrorAtMost(records, bound);
    }
  }

  // ---------------------------------------------------------------- the loops

  method Volumes(domains: seq<DomainQuality>) returns (cad: real, mesh: real)
    ensures cad == CadVolume(domains) && mesh == MeshVolume(domains)
  {
    cad, mesh := 0.0, 0.0;
    for d := 0 to |domains|
      invariant cad == CadVolume(domains[..d]) && mesh == MeshVolume(domains[..d])
    {
      assert domains[..d + 1][..d] == domains[..d];
      cad, mesh := cad + domains[d].cadVolume, mesh + domains[d].meshVolume;
    }
    assert domains[..|domains|] == domains;
  }

  method Weighted(domains: seq<DomainQuality>) returns (weighted: real)
    ensures weighted == WeightedAverages(domains)
  {
    weighted := 0.0;
    for d := 0 to |domains|
      invariant weighted == WeightedAverages(domains[..d])
    {
      assert domains[..d + 1][..d] == domains[..d];
      weighted := weighted + domains[d].average * domains[d].elementCount as real;
    }
    assert domains[..|domains|] == domains;
  }

  method Least(domains: seq<DomainQuality>) returns (least: real)
    requires domains != []
    ensures least == Minimum(domains)
  {
    least := domains[0].minimum;
    for d := 1 to |domains|
      invariant least == Minimum(domains[..d])
    {
      assert domains[..d + 1][..d] == domains[..d];
      if domains[d].minimum < least {
        least := domains[d].minimum;
      }
    }
    assert domains[..|domains|] == domains;
  }

  /** The record, with the number of elements the model really has. */
  method Summarize(records: seq<DomainQuality>, o: Composed) returns (q: ModelQuality)
    requires records != [] && CadVolume(records) > 0.0
    ensures q == Summary(records, o)
  {
    var cad, mesh := Volumes(records);
    var weighted := Weighted(records);
    var least := Least(records);
    var average := if |o.elements| == 0 then None else Some(weighted / |o.elements| as real);
    q := ModelQuality(least, average, |o.nodes|, |o.elements|, |o.facets|, cad, mesh, RelativeError(mesh, cad),
      records);
  }

  /** The node counts of the records, looked up region by region. */
  method Recount(records: seq<DomainQuality>, regions: seq<DomainRegion>) returns (r: seq<DomainQuality>)
    requires HasRegions(records, regions)
    ensures r == Recounted(records, regions)
  {
    r := records;
    for d := 0 to |records|
      invariant |r| == |records|
      invariant forall k :: 0 <= k < d ==> r[k] == Recounted(records, regions)[k]
      invariant forall k :: d <= k < |records| ==> r[k] == records[k]
    {
      var region := FindRegion(regions, r[d].domainId, 0).value;
      r := r[d := r[d].(nodeCount := |regions[region].nodeIndices|)];
    }
  }
}
