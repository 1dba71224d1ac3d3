/** Concatenating the local meshes of all domains into one model: transformed
    coordinates, shifted connectivity, and the lists that record who owns what. */
module Composition {
  import opened Wrappers
  import opened Ascending
  import opened FemModel
  import opened InterfaceWeld
  import opened WeldSoundness
  import opened Compaction
  import opened WeldedModel
  import opened SharedTopology

  datatype MeshRegion = MeshRegion(semanticReferenceIds: seq<string>, facetIndices: seq<nat>)

  /** What a local mesh says of itself. */
  datatype MeshQuality = MeshQuality(
    invalidElementCount: nat, nodeCount: nat, elementCount: nat, facetCount: nat,
    minimum: real, average: real, meshVolume: real, volumeRelativeError: real)

  /** A local mesh, in the coordinates of its part. */
  datatype Mesh = Mesh(
    requestDigest: string, projectRevision: string, geometryDigest: string, coordinateSpace: string,
    nodes: seq<Vec3>, elements: seq<seq<nat>>, facets: seq<Facet>, boundaryRegions: seq<MeshRegion>,
      quality: MeshQuality)

  datatype Domain = Domain(domainId: string, geometryDigest: string, transformToAnalysis: seq<real>, cadVolume: real)

  datatype Request = Request(
    requestDigest: string, projectRevision: string, minimumQuality: real, domains: seq<Domain>,
      interactions: seq<Interaction>)

  datatype MeshedDomain = MeshedDomain(domainId: string, mesh: Mesh)

  datatype ComposeError = DomainMappingInvalid | DomainIdentityInvalid | WeldRefused(error: WeldError)

  function TransformRow(a: real, b: real, c: real, d: real, p: Vec3): real {
    a * p.x + b * p.y + c * p.z + d
  }

  /** Rows of a four-by-four matrix, the last of which is not read. */
  function TransformPoint(t: seq<real>, p: Vec3): Vec3
    requires |t| == 16
  {
    Vec3(TransformRow(t[0], t[1], t[2], t[3], p), TransformRow(t[4], t[5], t[6], t[7], p),
         TransformRow(t[8], t[9], t[10], t[11], p))
  }

  function TransformAll(t: seq<real>, points: seq<Vec3>): (r: seq<Vec3>)
    requires |t| == 16
    ensures |r| == |points|
  {
    seq(|points|, i requires 0 <= i < |points| => TransformPoint(t, points[i]))
  }

  function ShiftEntry(entry: seq<nat>, offset: nat): (r: seq<nat>)
    ensures |r| == |entry|
  {
    seq(|entry|, i requires 0 <= i < |entry| => entry[i] + offset)
  }

  function Shift(entries: seq<seq<nat>>, offset: nat): (r: seq<seq<nat>>)
    ensures |r| == |entries|
  {
    seq(|entries|, e requires 0 <= e < |entries| => ShiftEntry(entries[e], offset))
  }

  function Repeat(id: string, count: nat): (r: seq<string>)
    ensures |r| == count
  {
    seq(count, _ => id)
  }

  /** `offset, offset + 1, ...`: the numbers a domain's own list gets. */
  function Numbered(offset: nat, count: nat): (r: seq<nat>)
    ensures |r| == count
  {
    seq(count, i requires 0 <= i < count => offset + i)
  }

  function PlaceRegions(regions: seq<MeshRegion>, domainId: string, facetOffset: nat): (r: seq<BoundaryRegion>)
    ensures |r| == |regions|
  {
    seq(|regions|, k requires 0 <= k < |regions| =>
      BoundaryRegion(domainId, regions[k].semanticReferenceIds, ShiftEntry(regions[k].facetIndices, facetOffset)))
  }

  const EMPTY_MODEL := Composed([], [], [], [], [], [], [])

  /** One domain's mesh appended to the model so far. */
  function AppendDomain(m: Composed, d: Domain, mesh: Mesh): Composed
    requires |d.transformToAnalysis| == 16
  {
    Composed(
      m.nodes + TransformAll(d.transformToAnalysis, mesh.nodes),
      m.elements + Shift(mesh.elements, |m.nodes|),
      m.elementDomainIds + Repeat(d.domainId, |mesh.elements|),
      m.facets + Shift(mesh.facets, |m.nodes|),
      m.facetDomainIds + Repeat(d.domainId, |mesh.facets|),
      m.boundaryRegions + PlaceRegions(mesh.boundaryRegions, d.domainId, |m.facets|),
      m.domainRegions + [
        DomainRegion(d.domainId, Numbered(|m.elements|, |mesh.elements|), Numbered(|m.nodes|, |mesh.nodes|))])
  }

  predicate SameIdentity(request: Request, d: Domain, mesh: Mesh) {
    && mesh.requestDigest == request.requestDigest
    && mesh.projectRevision == request.projectRevision
    && mesh.geometryDigest == d.geometryDigest
    && mesh.coordinateSpace == "part_definition_local"
  }

  ghost predicate ValidRequest(request: Request) {
    && (forall d :: 0 <= d < |request.domains| ==> |request.domains[d].transformToAnalysis| == 16)
    && forall d, e :: 0 <= d < e < |request.domains| ==> request.domains[d].domainId != request.domains[e].domainId
  }

  ghost predicate Supplies(request: Request, supplied: map<string, Mesh>) {
    forall d :: 0 <= d < |request.domains| ==> request.domains[d].domainId in supplied
  }

  /** The first `k` domains composed, unless a mesh belongs to something else. */
  function ComposeFirst(request: Request, supplied: map<string, Mesh>, k: nat): Result<Composed, ComposeError>
    requires ValidRequest(request) && Supplies(request, supplied) && k <= |request.domains|
  {
    if k == 0 then Success(EMPTY_MODEL)
    else
      var m :- ComposeFirst(request, supplied, k - 1);
      var d := request.domains[k - 1];
      var mesh := supplied[d.domainId];
      if !SameIdentity(request, d, mesh) then Failure(DomainIdentityInvalid)
      else Success(AppendDomain(m, d, mesh))
  }

  // ---------------------------------------------------------------- what a valid mesh is

  ghost predicate ValidConnectivity(entries: seq<seq<nat>>, nodeCount: nat) {
    forall e :: 0 <= e < |entries| ==> Below(entries[e], nodeCount) && Distinct(entries[e])
  }

  /** What mesh validation checks of connectivity and of boundary regions, and
      what meshing provides: a boundary facet is a face of some element. */
  ghost predicate ValidMesh(mesh: Mesh) {
    && ValidConnectivity(mesh.elements, |mesh.nodes|)
    && ValidConnectivity(mesh.facets, |mesh.nodes|)
    && (forall r :: 0 <= r < |mesh.boundaryRegions| ==> Below(mesh.boundaryRegions[r].facetIndices, |mesh.facets|))
    && AllIn(mesh.facets, NodesOf(mesh.elements))
  }

  /** The domain of every node of the first `k` domains. */
  ghost function HomeFirst(request: Request, supplied: map<string, Mesh>, k: nat): seq<string>
    requires Supplies(request, supplied) && k <= |request.domains|
  {
    if k == 0 then []
    else
      var d := request.domains[k - 1];
      HomeFirst(request, supplied, k - 1) + Repeat(d.domainId, |supplied[d.domainId].nodes|)
  }

  // ---------------------------------------------------------------- appending keeps the model well formed

  lemma ShiftedEntries(home: seq<string>, entries: seq<seq<nat>>, id: string, count: nat)
    requires ValidConnectivity(entries, count)
    ensures EntriesHomed(home + Repeat(id, count), Shift(entries, |home|), Repeat(id, |entries|))
  {
  }

  lemma EntriesAppend(home: seq<string>, added: seq<string>, a: seq<seq<nat>>, aIds: seq<string>, b: seq<seq<nat>>,
      bIds: seq<string>)
    requires EntriesHomed(home, a, aIds) && EntriesHomed(home + added, b, bIds)
    ensures EntriesHomed(home + added, a + b, aIds + bIds)
  {
  }

  lemma ShiftedIn(entries: seq<seq<nat>>, elements: seq<seq<nat>>, offset: nat)
    requires AllIn(entries, NodesOf(elements))
    ensures AllIn(Shift(entries, offset), NodesOf(Shift(elements, offset)))
  {
    forall e, i | 0 <= e < |entries| && 0 <= i < |entries[e]|
      ensures entries[e][i] + offset in NodesOf(Shift(elements, offset))
    {
      var f, j := EntryOfNode(elements, entries[e][i]);
      NodeOfEntry(Shift(elements, offset), f, j);
    }
  }

  lemma NodesOfAppend(a: seq<seq<nat>>, b: seq<seq<nat>>)
    ensures NodesOf(a + b) == NodesOf(a) + NodesOf(b)
  {
  }

  lemma OldRegionsStillList(region: DomainRegion, ids: seq<string>, id: string, count: nat)
    requires ListsElements(region, ids) && region.domainId != id
    ensures ListsElements(region, ids + Repeat(id, count))
  {
  }

  lemma NewRegionLists(ids: seq<string>, id: string, count: nat, nodes: seq<nat>)
    requires forall e :: 0 <= e < |ids| ==> ids[e] != id
    ensures ListsElements(DomainRegion(id, Numbered(|ids|, count), nodes), ids + Repeat(id, count))
  {
    var region := DomainRegion(id, Numbered(|ids|, count), nodes);
    forall e | 0 <= e < |ids| + count && (ids + Repeat(id, count))[e] == id ensures e in region.elementIndices {
      assert Numbered(|ids|, count)[e - |ids|] == e;
    }
  }

  lemma BoundaryRegionsAppend(m: Composed, home: seq<string>, d: Domain, mesh: Mesh)
    requires WellFormed(m, home) && ValidMesh(mesh) && |d.transformToAnalysis| == 16
    ensures var o := AppendDomain(m, d, mesh);
      forall r :: 0 <= r < |o.boundaryRegions| ==> ListsFacets(o.boundaryRegions[r], o.facetDomainIds)
  {
  }

  lemma DomainRegionsAppend(m: Composed, home: seq<string>, d: Domain, mesh: Mesh)
    requires WellFormed(m, home) && |d.transformToAnalysis| == 16 && d.domainId !in DomainIds(m.domainRegions)
    ensures var o := AppendDomain(m, d, mesh);
      && DomainIds(o.domainRegions) == DomainIds(m.domainRegions) + [d.domainId]
      && Distinct(DomainIds(o.domainRegions))
      && forall k :: 0 <= k < |o.domainRegions| ==> ListsElements(o.domainRegions[k], o.elementDomainIds)
  {
    var o := AppendDomain(m, d, mesh);
    var ids := DomainIds(m.domainRegions);
    assert DomainIds(o.domainRegions) == ids + [d.domainId];
    forall k | 0 <= k < |o.domainRegions| ensures ListsElements(o.domainRegions[k], o.elementDomainIds) {
      if k < |m.domainRegions| {
        assert ids[k] in ids;
        OldRegionsStillList(m.domainRegions[k], m.elementDomainIds, d.domainId, |mesh.elements|);
      } else {
        NewRegionLists(m.elementDomainIds, d.domainId, |mesh.elements|, Numbered(|m.nodes|, |mesh.nodes|));
      }
    }
  }

  lemma ConnectivityAppend(m: Composed, home: seq<string>, d: Domain, mesh: Mesh)
    requires WellFormed(m, home) && ValidMesh(mesh) && |d.transformToAnalysis| == 16
    ensures var o, h := AppendDomain(m, d, mesh), home + Repeat(d.domainId, |mesh.nodes|);
      && EntriesHomed(h, o.elements, o.elementDomainIds)
      && EntriesHomed(h, o.facets, o.facetDomainIds)
      && AllIn(o.facets, NodesOf(o.elements))
  {
    var added := Repeat(d.domainId, |mesh.nodes|);
    ShiftedEntries(home, mesh.elements, d.domainId, |mesh.nodes|);
    ShiftedEntries(home, mesh.facets, d.domainId, |mesh.nodes|);
    EntriesAppend(home, added, m.elements, m.elementDomainIds,
                  Shift(mesh.elements, |home|), Repeat(d.domainId, |mesh.elements|));
    EntriesAppend(home, added, m.facets, m.facetDomainIds,
                  Shift(mesh.facets, |home|), Repeat(d.domainId, |mesh.facets|));
    ShiftedIn(mesh.facets, mesh.elements, |home|);
    NodesOfAppend(m.elements, Shift(mesh.elements, |home|));
  }

  lemma AppendKeepsWellFormed(m: Composed, home: seq<string>, d: Domain, mesh: Mesh)
    requires WellFormed(m, home) && ValidMesh(mesh)
    requires |d.transformToAnalysis| == 16 && d.domainId !in DomainIds(m.domainRegions)
    ensures WellFormed(AppendDomain(m, d, mesh), home + Repeat(d.domainId, |mesh.nodes|))
  {
    ConnectivityAppend(m, home, d, mesh);
    BoundaryRegionsAppend(m, home, d, mesh);
    DomainRegionsAppend(m, home, d, mesh);
  }

  ghost predicate ValidMeshes(request: Request, supplied: map<string, Mesh>)
    requires Supplies(request, supplied)
  {
    forall d :: 0 <= d < |request.domains| ==> ValidMesh(supplied[request.domains[d].domainId])
  }

  /** The domains so far, in the order of the request. */
  ghost predicate ListsFirst(request: Request, ids: seq<string>, k: nat)
    requires k <= |request.domains|
  {
    |ids| == k && forall d :: 0 <= d < k ==> ids[d] == request.domains[d].domainId
  }

  lemma NextIsNew(request: Request, ids: seq<string>, k: nat)
    requires ValidRequest(request) && k < |request.domains| && ListsFirst(request, ids, k)
    ensures request.domains[k].domainId !in ids
    ensures ListsFirst(request, ids + [request.domains[k].domainId], k + 1)
  {
  }

  lemma NothingIsWellFormed()
    ensures WellFormed(EMPTY_MODEL, []) && DomainIds(EMPTY_MODEL.domainRegions) == []
  {
    assert NodesOf([]) == {};
  }

  /** Composing valid meshes of distinct domains yields a well-formed model
      whose domains are those of the request, in order. */
  lemma {:induction false} ComposedIsWellFormed(request: Request, supplied: map<string, Mesh>, k: nat)
    requires ValidRequest(request) && Supplies(request, supplied) && ValidMeshes(request, supplied)
    requires k <= |request.domains| && ComposeFirst(request, supplied, k).Success?
    ensures WellFormed(ComposeFirst(request, supplied, k).value, HomeFirst(request, supplied, k))
    ensures ListsFirst(request, DomainIds(ComposeFirst(request, supplied, k).value.domainRegions), k)
  {
    if k > 0 {
      ComposedIsWellFormed(request, supplied, k - 1);
      var m, home := ComposeFirst(request, supplied, k - 1).value, HomeFirst(request, supplied, k - 1);
      var d := request.domains[k - 1];
      NextIsNew(request, DomainIds(m.domainRegions), k - 1);
      AppendKeepsWellFormed(m, home, d, supplied[d.domainId]);
      DomainRegionsAppend(m, home, d, supplied[d.domainId]);
    } else {
      NothingIsWellFormed();
    }
  }
}
