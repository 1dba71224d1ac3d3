/** What the bridge checks of a composed model before it is solved: connectivity,
    counts, who owns which elements and nodes, boundary regions and records. */
module ModelValidation {
  import opened Wrappers
  import opened Ascending
  import opened FemModel
  import opened Compaction
  import opened WeldedModel
  import opened NodeBalance
  import opened SharedTopology
  import opened Composition
  import opened NodeLists
  import opened ComposedModel
  import opened Quality

  datatype ModelError =
    ModelInvalid | ConnectivityInvalid | QualityInvalid | DomainMappingInvalid | BoundaryMappingInvalid

  /** The requested domains by id. */
  function DomainsById(domains: seq<Domain>): map<string, Domain> {
    if domains == [] then map[]
    else DomainsById(domains[..|domains| - 1])[domains[|domains| - 1].domainId := domains[|domains| - 1]]
  }

  // ---------------------------------------------------------------- the checks, in order

  predicate LengthsAccepted(o: Composed) {
    |o.elementDomainIds| == |o.elements| && |o.facetDomainIds| == |o.facets|
  }

  predicate EntriesAccepted(entries: seq<seq<nat>>, nodeCount: nat) {
    forall e | 0 <= e < |entries| :: Distinct(entries[e]) && Below(entries[e], nodeCount)
  }

  predicate CountsAccepted(o: Composed, q: ModelQuality) {
    q.nodeCount == |o.nodes| && q.elementCount == |o.elements| && q.facetCount == |o.facets|
  }

  /** As many nodes are listed as are connected, and each listed one is. */
  predicate NodesConnected(elements: seq<seq<nat>>, region: DomainRegion)
    requires Below(region.elementIndices, |elements|)
  {
    var connected := DomainNodes(elements, region);
    && |connected| == |region.nodeIndices|
    && forall i | 0 <= i < |region.nodeIndices| :: region.nodeIndices[i] in connected
  }

  predicate RegionAccepted(o: Composed, domains: map<string, Domain>, region: DomainRegion)
    requires LengthsAccepted(o)
  {
    && region.domainId in domains && Distinct(region.elementIndices) && Distinct(region.nodeIndices)
    && Below(region.elementIndices, |o.elements|)
    && (forall i | 0 <= i < |region.elementIndices| ::
          o.elementDomainIds[region.elementIndices[i]] == region.domainId)
    && Below(region.nodeIndices, |o.nodes|)
    && NodesConnected(o.elements, region)
  }

  /** The element lists of all domains, one after the other. */
  function Claimed(regions: seq<DomainRegion>): seq<nat> {
    if regions == [] then [] else Claimed(regions[..|regions| - 1]) + regions[|regions| - 1].elementIndices
  }

  /** Every element is claimed once: in order, the claims are 0, 1, 2 and so on. */
  predicate ClaimsAccepted(claimed: seq<nat>, elementCount: nat) {
    |claimed| == elementCount && Distinct(claimed) && Sorted(set n | n in claimed) == Numbered(0, elementCount)
  }

  function RecordIds(records: seq<DomainQuality>): (r: seq<string>)
    ensures |r| == |records|
  {
    seq(|records|, d requires 0 <= d < |records| => records[d].domainId)
  }

  predicate DomainsAccepted(o: Composed, q: ModelQuality, domains: map<string, Domain>)
    requires LengthsAccepted(o)
  {
    && |o.domainRegions| == |domains| && |q.perDomain| == |domains|
    && Distinct(DomainIds(o.domainRegions)) && Distinct(RecordIds(q.perDomain))
    && (forall d | 0 <= d < |o.domainRegions| :: RegionAccepted(o, domains, o.domainRegions[d]))
    && ClaimsAccepted(Claimed(o.domainRegions), |o.elements|)
    && forall e | 0 <= e < |o.elements| :: o.elementDomainIds[e] in domains
  }

  predicate BoundaryAccepted(o: Composed, region: BoundaryRegion)
    requires LengthsAccepted(o)
  {
    match FindRegion(o.domainRegions, region.domainId, 0)
    case None => false
    case Some(d) =>
      && Below(region.facetIndices, |o.facets|)
      && (forall i | 0 <= i < |region.facetIndices| :: o.facetDomainIds[region.facetIndices[i]] == region.domainId)
      && FacetsListed(o.facets, region, o.domainRegions[d])
  }

  predicate RecordAccepted(o: Composed, domains: map<string, Domain>, q: DomainQuality) {
    match FindRegion(o.domainRegions, q.domainId, 0)
    case None => false
    case Some(d) =>
      && q.domainId in domains && q.cadVolume == domains[q.domainId].cadVolume
      && q.elementCount == |o.domainRegions[d].elementIndices| && q.nodeCount == |o.domainRegions[d].nodeIndices|
  }

  /** The first check that refuses the model, if any does. */
  function Refusal(o: Composed, q: ModelQuality, domains: map<string, Domain>): Option<ModelError> {
    if !LengthsAccepted(o) then Some(ModelInvalid)
    else if !EntriesAccepted(o.elements, |o.nodes|) || !EntriesAccepted(o.facets, |o.nodes|) then
      Some(ConnectivityInvalid)
    else if !CountsAccepted(o, q) then Some(QualityInvalid)
    else if !DomainsAccepted(o, q, domains) then Some(ModelError.DomainMappingInvalid)
    else if exists r | 0 <= r < |o.boundaryRegions| :: !BoundaryAccepted(o, o.boundaryRegions[r]) then
      Some(BoundaryMappingInvalid)
    else if exists d | 0 <= d < |q.perDomain| :: !RecordAccepted(o, domains, q.perDomain[d]) then Some(QualityInvalid)
    else None
  }

  // ---------------------------------------------------------------- what the node check comes to

  /** Counting the connected nodes and looking each listed one up says that exactly
      the connected nodes are listed. */
  lemma ConnectedExactly(elements: seq<seq<nat>>, region: DomainRegion)
    requires Below(region.elementIndices, |elements|) && Distinct(region.nodeIndices)
    ensures NodesConnected(elements, region) <==> ListsOwnNodes(elements, region)
  {
    var listed := set n | n in region.nodeIndices;
    var connected := DomainNodes(elements, region);
    DistinctSize(region.nodeIndices);
    if NodesConnected(elements, region) {
      forall n | n in listed ensures n in connected {
        var i :| 0 <= i < |region.nodeIndices| && region.nodeIndices[i] == n;
      }
      SameSizeSubset(listed, connected);
    }
    if ListsOwnNodes(elements, region) {
      assert listed == connected;
    }
  }

  lemma OwnNodesInRange(elements: seq<seq<nat>>, region: DomainRegion, nodeCount: nat)
    requires EntriesAccepted(elements, nodeCount) && ListsOwnNodes(elements, region)
    ensures Below(region.nodeIndices, nodeCount)
  {
    forall i | 0 <= i < |region.nodeIndices| ensures region.nodeIndices[i] < nodeCount {
      assert region.nodeIndices[i] in region.nodeIndices;
      var k, j := EntryOfNode(Pick(elements, region.elementIndices), region.nodeIndices[i]);
      assert Below(elements[region.elementIndices[k]], nodeCount);
    }
  }

  /** Whatever the nodes, the region is a known domain's and has its elements. */
  ghost predicate RegionOwned(o: Composed, domains: map<string, Domain>, region: DomainRegion)
    requires LengthsAccepted(o)
  {
    && region.domainId in domains && Distinct(region.elementIndices)
    && ListsElements(region, o.elementDomainIds) && Distinct(region.nodeIndices)
  }

  lemma RegionAcceptedExactly(o: Composed, domains: map<string, Domain>, region: DomainRegion)
    requires LengthsAccepted(o) && EntriesAccepted(o.elements, |o.nodes|) && RegionOwned(o, domains, region)
    ensures RegionAccepted(o, domains, region) <==> ListsOwnNodes(o.elements, region)
  {
    ConnectedExactly(o.elements, region);
    if ListsOwnNodes(o.elements, region) {
      OwnNodesInRange(o.elements, region, |o.nodes|);
    }
  }

  // ---------------------------------------------------------------- what holds of every composed model

  lemma {:induction false} DomainKeys(domains: seq<Domain>)
    ensures DomainsById(domains).Keys == set d | d in domains :: d.domainId
  {
    if domains != [] {
      var init, last := domains[..|domains| - 1], domains[|domains| - 1];
      DomainKeys(init);
      assert domains == init + [last];
      assert DomainsById(domains).Keys == DomainsById(init).Keys + {last.domainId};
      assert (set d | d in domains :: d.domainId) == (set d | d in init :: d.domainId) + {last.domainId};
    }
  }

  ghost predicate DifferentIds(domains: seq<Domain>) {
    forall d, e :: 0 <= d < e < |domains| ==> domains[d].domainId != domains[e].domainId
  }

  lemma OneDomainMore(known: map<string, Domain>, id: string, d: Domain)
    requires id !in known
    ensures |known[id := d]| == |known| + 1
  {
    assert known[id := d].Keys == known.Keys + {id};
  }

  lemma {:induction false} DomainCount(domains: seq<Domain>)
    requires DifferentIds(domains)
    ensures |DomainsById(domains)| == |domains|
  {
    if domains != [] {
      var init, last := domains[..|domains| - 1], domains[|domains| - 1];
      DomainCount(init);
      DomainKeys(init);
      OneDomainMore(DomainsById(init), last.domainId, last);
    }
  }

  lemma {:induction false} DomainFound(domains: seq<Domain>, d: nat)
    requires DifferentIds(domains) && d < |domains|
    ensures domains[d].domainId in DomainsById(domains) && DomainsById(domains)[domains[d].domainId] == domains[d]
  {
    if d < |domains| - 1 {
      DomainFound(domains[..|domains| - 1], d);
    }
  }

  /** Looking a domain up by its id finds it, and nothing else is found. */
  lemma DomainsFound(domains: seq<Domain>)
    requires DifferentIds(domains)
    ensures |DomainsById(domains)| == |domains|
    ensures forall d :: 0 <= d < |domains| ==>
      domains[d].domainId in DomainsById(domains) && DomainsById(domains)[domains[d].domainId] == domains[d]
    ensures forall id :: id in DomainsById(domains) ==> exists d :: 0 <= d < |domains| && domains[d].domainId == id
  {
    DomainCount(domains);
    DomainKeys(domains);
    forall d | 0 <= d < |domains|
      ensures domains[d].domainId in DomainsById(domains) && DomainsById(domains)[domains[d].domainId] == domains[d]
    {
      DomainFound(domains, d);
    }
    forall id | id in DomainsById(domains) ensures exists d :: 0 <= d < |domains| && domains[d].domainId == id {
      assert id in DomainsById(domains).Keys;
    }
  }

  /** The domains claim the elements in turn. */
  lemma {:induction false} ClaimedInTurn(request: Request, supplied: map<string, Mesh>, k: nat)
    requires ValidRequest(request) && Supplies(request, supplied)
    requires k <= |request.domains| && ComposeFirst(request, supplied, k).Success?
    ensures var m := ComposeFirst(request, supplied, k).value;
      && Claimed(m.domainRegions) == Numbered(0, |m.elements|)
      && forall d :: 0 <= d < |m.domainRegions| ==> Distinct(m.domainRegions[d].elementIndices)
  {
    if k > 0 {
      ClaimedInTurn(request, supplied, k - 1);
      var m := ComposeFirst(request, supplied, k - 1).value;
      var o := ComposeFirst(request, supplied, k).value;
      assert o.domainRegions[..|m.domainRegions|] == m.domainRegions;
      NumberedMembers(|m.elements|, |o.elements| - |m.elements|, 0);
    }
  }

  lemma {:induction false} SameClaims(a: seq<DomainRegion>, b: seq<DomainRegion>)
    requires |a| == |b| && forall d :: 0 <= d < |a| ==> a[d].elementIndices == b[d].elementIndices
    ensures Claimed(a) == Claimed(b)
  {
    if a != [] {
      SameClaims(a[..|a| - 1], b[..|b| - 1]);
    }
  }

  lemma {:induction false} IncreasingMeet(a: seq<nat>, b: seq<nat>)
    requires Increasing(a) && Increasing(b) && |a| == |b| && forall n: nat :: n in a <==> n in b
    ensures a == b
  {
    if a != [] {
      var last := |a| - 1;
      assert a[last] in b && b[last] in a;
      var i :| 0 <= i < |b| && b[i] == a[last];
      var j :| 0 <= j < |a| && a[j] == b[last];
      assert a[last] == b[last];
      forall n: nat ensures n in a[..last] <==> n in b[..last] {
        WithoutLast(a, n);
        WithoutLast(b, n);
      }
      IncreasingMeet(a[..last], b[..last]);
      assert a == a[..last] + [a[last]] && b == b[..last] + [b[last]];
    }
  }

  lemma WithoutLast(s: seq<nat>, n: nat)
    requires Increasing(s) && s != []
    ensures n in s[..|s| - 1] <==> n in s && n != s[|s| - 1]
  {
  }

  lemma NumberedAccepted(count: nat)
    ensures ClaimsAccepted(Numbered(0, count), count)
  {
    var claimed := Numbered(0, count);
    var members := set n | n in claimed;
    NumberedMembers(0, count, 0);
    DistinctSize(claimed);
    SortedIsSet(members);
    forall n: nat ensures n in Sorted(members) <==> n in claimed {
      if n in Sorted(members) {
        assert n in members;
      }
      if n in claimed {
        assert n in members;
      }
    }
    IncreasingMeet(Sorted(members), claimed);
  }

  /** What every composed model meets, whatever nodes its domains list. */
  ghost predicate Structured(request: Request, o: Composed) {
    var domains := DomainsById(request.domains);
    && LengthsAccepted(o) && EntriesAccepted(o.elements, |o.nodes|) && EntriesAccepted(o.facets, |o.nodes|)
    && |o.domainRegions| == |domains| == |request.domains| && Distinct(DomainIds(o.domainRegions))
    && (forall d :: 0 <= d < |o.domainRegions| ==> RegionOwned(o, domains, o.domainRegions[d]))
    && ClaimsAccepted(Claimed(o.domainRegions), |o.elements|)
    && (forall e :: 0 <= e < |o.elements| ==> o.elementDomainIds[e] in domains)
    && (forall r :: 0 <= r < |o.boundaryRegions| ==> BoundaryAccepted(o, o.boundaryRegions[r]))
  }

  /** What the concatenation grants, and the weld leaves as it is. */
  ghost predicate Concatenated(request: Request, m: Composed, home: seq<string>) {
    && WellFormed(m, home) && ListsFirst(request, DomainIds(m.domainRegions), |request.domains|)
    && Claimed(m.domainRegions) == Numbered(0, |m.elements|)
    && (forall d :: 0 <= d < |m.domainRegions| ==> Distinct(m.domainRegions[d].elementIndices))
    && forall r :: 0 <= r < |m.boundaryRegions| ==> m.boundaryRegions[r].domainId in DomainsById(request.domains)
  }

  lemma ConcatenationHolds(request: Request, supplied: map<string, Mesh>)
    requires ValidRequest(request) && Supplies(request, supplied) && ValidMeshes(request, supplied)
    requires ComposeFirst(request, supplied, |request.domains|).Success?
    ensures Concatenated(request, ComposeFirst(request, supplied, |request.domains|).value,
                         HomeFirst(request, supplied, |request.domains|))
  {
    var count := |request.domains|;
    var m := ComposeFirst(request, supplied, count).value;
    ComposedIsWellFormed(request, supplied, count);
    ClaimedInTurn(request, supplied, count);
    DomainsFound(request.domains);
    forall r | 0 <= r < |m.boundaryRegions|
      ensures m.boundaryRegions[r].domainId in DomainsById(request.domains)
    {
      var d := RegionOrigin(request, supplied, count, r);
    }
  }

  lemma RegionsOwned(request: Request, m: Composed, home: seq<string>, o: Composed, d: nat)
    requires ValidRequest(request) && Concatenated(request, m, home) && SameDomains(m, o) && LengthsAccepted(o)
    requires d < |o.domainRegions| && Distinct(o.domainRegions[d].nodeIndices)
    ensures RegionOwned(o, DomainsById(request.domains), o.domainRegions[d])
  {
    DomainsFound(request.domains);
    assert DomainIds(m.domainRegions)[d] == request.domains[d].domainId;
    assert ListsElements(m.domainRegions[d], m.elementDomainIds);
  }

  lemma OwnersKnown(request: Request, m: Composed, home: seq<string>, e: nat)
    requires ValidRequest(request) && Concatenated(request, m, home) && e < |m.elements|
    ensures e < |m.elementDomainIds| && m.elementDomainIds[e] in DomainsById(request.domains)
  {
    DomainsFound(request.domains);
    var ids := DomainIds(m.domainRegions);
    assert m.elementDomainIds[e] in ids;
    var d :| 0 <= d < |ids| && ids[d] == m.elementDomainIds[e];
  }

  lemma RegionsOfBoundary(request: Request, m: Composed, home: seq<string>, o: Composed, r: nat)
    requires ValidRequest(request) && Concatenated(request, m, home) && SameDomains(m, o) && LengthsAccepted(o)
    requires BoundaryListed(o) && r < |o.boundaryRegions|
    ensures BoundaryAccepted(o, o.boundaryRegions[r])
  {
    DomainsFound(request.domains);
    var region := o.boundaryRegions[r];
    assert ListsFacets(m.boundaryRegions[r], m.facetDomainIds);
    var d :| 0 <= d < |request.domains| && request.domains[d].domainId == region.domainId;
    assert DomainIds(m.domainRegions)[d] == region.domainId;
    assert o.domainRegions[d].domainId == region.domainId;
    assert FindRegion(o.domainRegions, region.domainId, 0).Some?;
  }

  lemma StructureKept(request: Request, m: Composed, home: seq<string>, o: Composed)
    requires ValidRequest(request) && Concatenated(request, m, home) && SameDomains(m, o)
    requires EntriesAccepted(o.elements, |o.nodes|) && EntriesAccepted(o.facets, |o.nodes|)
    requires forall d :: 0 <= d < |o.domainRegions| ==> Distinct(o.domainRegions[d].nodeIndices)
    requires BoundaryListed(o)
    ensures Structured(request, o)
  {
    DomainCount(request.domains);
    assert DomainIds(o.domainRegions) == DomainIds(m.domainRegions);
    SameClaims(m.domainRegions, o.domainRegions);
    NumberedAccepted(|o.elements|);
    forall d | 0 <= d < |o.domainRegions|
      ensures RegionOwned(o, DomainsById(request.domains), o.domainRegions[d])
    {
      RegionsOwned(request, m, home, o, d);
    }
    forall e | 0 <= e < |o.elements| ensures o.elementDomainIds[e] in DomainsById(request.domains) {
      OwnersKnown(request, m, home, e);
    }
    forall r | 0 <= r < |o.boundaryRegions| ensures BoundaryAccepted(o, o.boundaryRegions[r]) {
      RegionsOfBoundary(request, m, home, o, r);
    }
  }

  lemma HomedAccepted(m: Composed, home: seq<string>, entries: seq<seq<nat>>, ids: seq<string>)
    requires |home| == |m.nodes| && EntriesHomed(home, entries, ids)
    ensures EntriesAccepted(entries, |m.nodes|)
  {
    forall e | 0 <= e < |entries| ensures Distinct(entries[e]) && Below(entries[e], |m.nodes|) {
      assert Homed(home, entries[e], ids[e]);
    }
  }

  lemma ConcatenationStructured(request: Request, meshed: seq<MeshedDomain>, o: Composed)
    requires Composable(request, meshed) && Compose(request, meshed) == Success(o)
    requires SharedInOrder(request.interactions) == []
    ensures Structured(request, o)
  {
    var supplied, count := Supplied(meshed), |request.domains|;
    var home := HomeFirst(request, supplied, count);
    UnweldedComposition(request, meshed, o);
    SuppliedValid(meshed);
    ConcatenationHolds(request, supplied);
    ListedFirst(request, supplied, count);
    HomedAccepted(o, home, o.elements, o.elementDomainIds);
    HomedAccepted(o, home, o.facets, o.facetDomainIds);
    StructureKept(request, o, home, o);
  }

  lemma WeldedStructured(request: Request, meshed: seq<MeshedDomain>, o: Composed)
    requires Composable(request, meshed) && Compose(request, meshed) == Success(o)
    requires SharedInOrder(request.interactions) != []
    ensures Structured(request, o)
  {
    var m, st := WeldedComposition(request, meshed, o);
    CompactionKeepsDomains(m, st.weld);
    SuppliedValid(meshed);
    ConcatenationHolds(request, Supplied(meshed));
    StructureKept(request, m, HomeFirst(request, Supplied(meshed), |request.domains|), o);
  }

  /** Every composed model is in order, up to the nodes its domains list. */
  lemma ComposedIsStructured(request: Request, meshed: seq<MeshedDomain>, o: Composed)
    requires Composable(request, meshed) && Compose(request, meshed) == Success(o)
    ensures Structured(request, o)
  {
    if SharedInOrder(request.interactions) == [] {
      ConcatenationStructured(request, meshed, o);
    } else {
      WeldedStructured(request, meshed, o);
    }
  }

  // ---------------------------------------------------------------- exactly when a composed model is accepted

  /** Every local mesh uses all of its nodes. */
  ghost predicate AllNodesUsed(request: Request, supplied: map<string, Mesh>)
    requires Supplies(request, supplied)
  {
    forall d :: 0 <= d < |request.domains| ==> UsesAllNodes(supplied[request.domains[d].domainId])
  }

  /** Every domain of a composed model lists exactly the nodes its elements use if
      and only if interfaces were welded or no local mesh has an unused node. */
  lemma OwnNodesExactly(request: Request, meshed: seq<MeshedDomain>, o: Composed)
    requires Composable(request, meshed) && Compose(request, meshed) == Success(o)
    ensures MappingAccepted(request, meshed)
    ensures (forall d :: 0 <= d < |o.domainRegions| ==> ListsOwnNodes(o.elements, o.domainRegions[d])) <==>
      SharedInOrder(request.interactions) != [] || AllNodesUsed(request, Supplied(meshed))
  {
    if SharedInOrder(request.interactions) == [] {
      UnweldedComposition(request, meshed, o);
    } else {
      var m, st := WeldedComposition(request, meshed, o);
    }
  }

  lemma RecordIdsDistinct(request: Request, records: seq<DomainQuality>, regions: seq<DomainRegion>)
    requires ValidRequest(request) && RecordsMatch(request, records, regions)
    ensures Distinct(RecordIds(records))
  {
    forall d, e | 0 <= d < e < |records| ensures RecordIds(records)[d] != RecordIds(records)[e] {
      assert request.domains[d].domainId != request.domains[e].domainId;
    }
  }

  lemma OneRecordAccepted(request: Request, records: seq<DomainQuality>, o: Composed, d: nat)
    requires ValidRequest(request) && RecordsMatch(request, records, o.domainRegions) && d < |records|
    requires Distinct(DomainIds(o.domainRegions))
    ensures RecordAccepted(o, DomainsById(request.domains), records[d])
  {
    DomainFound(request.domains, d);
    FindsOwnRegion(o.domainRegions, d, 0);
  }

  lemma AcceptedFromStructure(request: Request, o: Composed, q: ModelQuality)
    requires ValidRequest(request) && Structured(request, o) && CountsAccepted(o, q)
    requires RecordsMatch(request, q.perDomain, o.domainRegions)
    ensures Refusal(o, q, DomainsById(request.domains)) ==
      if forall d :: 0 <= d < |o.domainRegions| ==> ListsOwnNodes(o.elements, o.domainRegions[d]) then None
      else Some(ModelError.DomainMappingInvalid)
  {
    var domains := DomainsById(request.domains);
    RecordIdsDistinct(request, q.perDomain, o.domainRegions);
    forall d | 0 <= d < |q.perDomain| ensures RecordAccepted(o, domains, q.perDomain[d]) {
      OneRecordAccepted(request, q.perDomain, o, d);
    }
    forall d | 0 <= d < |o.domainRegions|
      ensures RegionAccepted(o, domains, o.domainRegions[d]) <==> ListsOwnNodes(o.elements, o.domainRegions[d])
    {
      RegionAcceptedExactly(o, domains, o.domainRegions[d]);
    }
  }

  /** A model composed of meshes that passed their gates is accepted if and only if
      interfaces were welded or no local mesh has an unused node; otherwise it is
      refused for the mapping of its domains. */
  lemma AcceptedExactly(request: Request, meshed: seq<MeshedDomain>, o: Composed)
    requires Composable(request, meshed) && Compose(request, meshed) == Success(o)
    requires request.domains != [] && HasVolumes(request)
    requires MappingAccepted(request, meshed) ==> AllPassGate(request, Supplied(meshed))
    ensures MappingAccepted(request, meshed)
    ensures Refusal(o, QualityOf(request, meshed, o), DomainsById(request.domains)) ==
      if SharedInOrder(request.interactions) != [] || AllNodesUsed(request, Supplied(meshed)) then None
      else Some(ModelError.DomainMappingInvalid)
  {
    RecordsOfComposition(request, meshed, o);
    ComposedIsStructured(request, meshed, o);
    OwnNodesExactly(request, meshed, o);
    AcceptedFromStructure(request, o, QualityOf(request, meshed, o));
  }

  // ---------------------------------------------------------------- the validation as it runs

  /** The checks one after the other, the domains' claims collected in a loop. */
  method Validate(o: Composed, q: ModelQuality, domains: map<string, Domain>) returns (refusal: Option<ModelError>)
    ensures refusal == Refusal(o, q, domains)
  {
    if !LengthsAccepted(o) {
      return Some(ModelInvalid);
    }
    if !EntriesAccepted(o.elements, |o.nodes|) || !EntriesAccepted(o.facets, |o.nodes|) {
      return Some(ConnectivityInvalid);
    }
    if !CountsAccepted(o, q) {
      return Some(QualityInvalid);
    }
    var mapped := ValidateDomains(o, q, domains);
    if !mapped {
      return Some(ModelError.DomainMappingInvalid);
    }
    for r := 0 to |o.boundaryRegions|
      invariant forall k :: 0 <= k < r ==> BoundaryAccepted(o, o.boundaryRegions[k])
    {
      if !BoundaryAccepted(o, o.boundaryRegions[r]) {
        return Some(BoundaryMappingInvalid);
      }
    }
    for d := 0 to |q.perDomain|
      invariant forall k :: 0 <= k < d ==> RecordAccepted(o, domains, q.perDomain[k])
    {
      if !RecordAccepted(o, domains, q.perDomain[d]) {
        return Some(QualityInvalid);
      }
    }
    return None;
  }

  method ValidateDomains(o: Composed, q: ModelQuality, domains: map<string, Domain>) returns (ok: bool)
    requires LengthsAccepted(o)
    ensures ok <==> DomainsAccepted(o, q, domains)
  {
    if |o.domainRegions| != |domains| || |q.perDomain| != |domains|
       || !Distinct(DomainIds(o.domainRegions)) || !Distinct(RecordIds(q.perDomain)) {
      return false;
    }
    var claimed: seq<nat> := [];
    for d := 0 to |o.domainRegions|
      invariant claimed == Claimed(o.domainRegions[..d])
      invariant forall k :: 0 <= k < d ==> RegionAccepted(o, domains, o.domainRegions[k])
    {
      if !RegionAccepted(o, domains, o.domainRegions[d]) {
        return false;
      }
      claimed := claimed + o.domainRegions[d].elementIndices;
      assert o.domainRegions[..d + 1][..d] == o.domainRegions[..d];
    }
    assert o.domainRegions[..|o.domainRegions|] == o.domainRegions;
    if !ClaimsAccepted(claimed, |o.elements|) {
      return false;
    }
    ok := ValidateOwners(o.elementDomainIds, domains);
  }

  method ValidateOwners(ids: seq<string>, domains: map<string, Domain>) returns (ok: bool)
    ensures ok <==> forall e :: 0 <= e < |ids| ==> ids[e] in domains
  {
    for e := 0 to |ids|
      invariant forall k :: 0 <= k < e ==> ids[k] in domains
    {
      if ids[e] !in domains {
        return false;
      }
    }
    return true;
  }
}
