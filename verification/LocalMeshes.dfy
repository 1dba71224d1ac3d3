/** What a composed model keeps of every local mesh: its elements, facets and boundary
    regions node by node, and its coordinates as the domain's transform places them. */
module LocalMeshes {
  import opened FemModel
  import opened TetraGeometry
  import opened Composition
  import opened TetraShape
  import opened Placement

  // ---------------------------------------------------------------- where a domain begins

  /** How many nodes the first `k` domains bring. */
  function NodesBefore(request: Request, supplied: map<string, Mesh>, k: nat): nat
    requires Supplies(request, supplied) && k <= |request.domains|
  {
    if k == 0 then 0
    else NodesBefore(request, supplied, k - 1) + |supplied[request.domains[k - 1].domainId].nodes|
  }

  function ElementsBefore(request: Request, supplied: map<string, Mesh>, k: nat): nat
    requires Supplies(request, supplied) && k <= |request.domains|
  {
    if k == 0 then 0
    else ElementsBefore(request, supplied, k - 1) + |supplied[request.domains[k - 1].domainId].elements|
  }

  function FacetsBefore(request: Request, supplied: map<string, Mesh>, k: nat): nat
    requires Supplies(request, supplied) && k <= |request.domains|
  {
    if k == 0 then 0
    else FacetsBefore(request, supplied, k - 1) + |supplied[request.domains[k - 1].domainId].facets|
  }

  function RegionsBefore(request: Request, supplied: map<string, Mesh>, k: nat): nat
    requires Supplies(request, supplied) && k <= |request.domains|
  {
    if k == 0 then 0
    else RegionsBefore(request, supplied, k - 1) + |supplied[request.domains[k - 1].domainId].boundaryRegions|
  }

  /** The model is as large as the meshes together: nothing is there twice or besides. */
  lemma {:induction false} SizesAddUp(request: Request, supplied: map<string, Mesh>, k: nat)
    requires ValidRequest(request) && Supplies(request, supplied) && k <= |request.domains|
    requires ComposeFirst(request, supplied, k).Success?
    ensures var m := ComposeFirst(request, supplied, k).value;
      && |m.nodes| == NodesBefore(request, supplied, k)
      && |m.elements| == |m.elementDomainIds| == ElementsBefore(request, supplied, k)
      && |m.facets| == |m.facetDomainIds| == FacetsBefore(request, supplied, k)
      && |m.boundaryRegions| == RegionsBefore(request, supplied, k)
  {
    if k > 0 {
      SizesAddUp(request, supplied, k - 1);
    }
  }

  // ---------------------------------------------------------------- the local mesh found again

  /** Slot by slot the local entry, after taking off the offset. */
  ghost predicate SameEntry(local: seq<nat>, composed: seq<nat>, offset: nat) {
    |composed| == |local| && forall i :: 0 <= i < |local| ==> composed[i] >= offset && composed[i] - offset == local[i]
  }

  /** The mesh's own entries stand in the list from `first` on. */
  ghost predicate EntriesKept(local: seq<seq<nat>>, composed: seq<seq<nat>>, ids: seq<string>, id: string, first: nat,
      offset: nat) {
    && first + |local| <= |composed| == |ids|
    && forall e :: 0 <= e < |local| ==> SameEntry(local[e], composed[first + e], offset) && ids[first + e] == id
  }

  /** The region carries the same references and the same facets, node by node. */
  ghost predicate RegionKept(mesh: Mesh, local: MeshRegion, m: Composed, region: BoundaryRegion, id: string,
      offset: nat) {
    && region.domainId == id && region.semanticReferenceIds == local.semanticReferenceIds
    && |region.facetIndices| == |local.facetIndices|
    && forall i :: 0 <= i < |local.facetIndices| ==>
      && local.facetIndices[i] < |mesh.facets| && region.facetIndices[i] < |m.facets|
      && SameEntry(mesh.facets[local.facetIndices[i]], m.facets[region.facetIndices[i]], offset)
  }

  ghost predicate RegionsKept(mesh: Mesh, m: Composed, id: string, first: nat, offset: nat) {
    && first + |mesh.boundaryRegions| <= |m.boundaryRegions|
    && forall r :: 0 <= r < |mesh.boundaryRegions| ==>
      RegionKept(mesh, mesh.boundaryRegions[r], m, m.boundaryRegions[first + r], id, offset)
  }

  /** The mesh is part of the model, its nodes, elements, facets and regions from the
      given positions on. */
  ghost predicate MeshKept(d: Domain, mesh: Mesh, m: Composed, nodes: nat, elements: nat, facets: nat, regions: nat)
    requires |d.transformToAnalysis| == 16
  {
    && EntriesKept(mesh.elements, m.elements, m.elementDomainIds, d.domainId, elements, nodes)
    && EntriesKept(mesh.facets, m.facets, m.facetDomainIds, d.domainId, facets, nodes)
    && RegionsKept(mesh, m, d.domainId, regions, nodes)
    && nodes + |mesh.nodes| <= |m.nodes|
    && PointsPlaced(d.transformToAnalysis, mesh.nodes, m.nodes[nodes..nodes + |mesh.nodes|])
  }

  // ---------------------------------------------------------------- where the points go

  /** Differences of the points are carried over by the linear part, and a point at the
      local origin goes where the translation says. */
  ghost predicate PointsPlaced(t: seq<real>, local: seq<Vec3>, placed: seq<Vec3>)
    requires |t| == 16
  {
    && |placed| == |local|
    && (forall a, b :: 0 <= a < |local| && 0 <= b < |local| ==>
          placed[a].Minus(placed[b]) == Linear(t, local[a].Minus(local[b])))
    && (forall a :: 0 <= a < |local| ==> placed[a].Minus(Translation(t)) == Linear(t, local[a]))
  }

  lemma AllPlaced(t: seq<real>, local: seq<Vec3>)
    requires |t| == 16
    ensures PointsPlaced(t, local, TransformAll(t, local))
  {
    var placed := TransformAll(t, local);
    forall a, b | 0 <= a < |local| && 0 <= b < |local|
      ensures placed[a].Minus(placed[b]) == Linear(t, local[a].Minus(local[b]))
    {
      TransformDifference(t, local[a], local[b]);
    }
    forall a | 0 <= a < |local| ensures placed[a].Minus(Translation(t)) == Linear(t, local[a]) {
      TransformDifference(t, local[a], local[a]);
    }
  }

  // ---------------------------------------------------------------- appending

  lemma ShiftedKept(local: seq<seq<nat>>, before: seq<seq<nat>>, ids: seq<string>, id: string, offset: nat)
    requires |ids| == |before|
    ensures EntriesKept(local, before + Shift(local, offset), ids + Repeat(id, |local|), id, |before|, offset)
  {
  }

  lemma EntriesStay(local: seq<seq<nat>>, before: seq<seq<nat>>, ids: seq<string>, id: string, first: nat, offset: nat,
      more: seq<seq<nat>>, moreIds: seq<string>)
    requires EntriesKept(local, before, ids, id, first, offset) && |more| == |moreIds|
    ensures EntriesKept(local, before + more, ids + moreIds, id, first, offset)
  {
    forall e | 0 <= e < |local|
      ensures SameEntry(local[e], (before + more)[first + e], offset) && (ids + moreIds)[first + e] == id
    {
      assert SameEntry(local[e], before[first + e], offset) && ids[first + e] == id;
    }
  }

  lemma PlacedFacets(m: Composed, d: Domain, mesh: Mesh, r: nat)
    requires |d.transformToAnalysis| == 16 && r < |mesh.boundaryRegions|
    ensures var o := AppendDomain(m, d, mesh);
      var local, region := mesh.boundaryRegions[r], o.boundaryRegions[|m.boundaryRegions| + r];
      && region.domainId == d.domainId && region.semanticReferenceIds == local.semanticReferenceIds
      && |region.facetIndices| == |local.facetIndices|
      && forall i :: 0 <= i < |local.facetIndices| ==> region.facetIndices[i] == |m.facets| + local.facetIndices[i]
  {
  }

  lemma PlacedRegionKept(m: Composed, d: Domain, mesh: Mesh, r: nat)
    requires ValidMesh(mesh) && |d.transformToAnalysis| == 16 && r < |mesh.boundaryRegions|
    requires |m.facetDomainIds| == |m.facets|
    ensures var o := AppendDomain(m, d, mesh);
      RegionKept(mesh, mesh.boundaryRegions[r], o, o.boundaryRegions[|m.boundaryRegions| + r], d.domainId, |m.nodes|)
  {
    PlacedFacets(m, d, mesh, r);
    ShiftedKept(mesh.facets, m.facets, m.facetDomainIds, d.domainId, |m.nodes|);
    var o := AppendDomain(m, d, mesh);
    var local, region := mesh.boundaryRegions[r], o.boundaryRegions[|m.boundaryRegions| + r];
    assert Below(local.facetIndices, |mesh.facets|);
    forall i | 0 <= i < |local.facetIndices|
      ensures region.facetIndices[i] < |o.facets|
      ensures SameEntry(mesh.facets[local.facetIndices[i]], o.facets[region.facetIndices[i]], |m.nodes|)
    {
      assert region.facetIndices[i] == |m.facets| + local.facetIndices[i];
    }
  }

  /** The domain that is added is kept. */
  lemma AddedIsKept(m: Composed, d: Domain, mesh: Mesh)
    requires ValidMesh(mesh) && |d.transformToAnalysis| == 16
    requires |m.elementDomainIds| == |m.elements| && |m.facetDomainIds| == |m.facets|
    ensures MeshKept(d, mesh, AppendDomain(m, d, mesh), |m.nodes|, |m.elements|, |m.facets|, |m.boundaryRegions|)
  {
    var o := AppendDomain(m, d, mesh);
    ShiftedKept(mesh.elements, m.elements, m.elementDomainIds, d.domainId, |m.nodes|);
    ShiftedKept(mesh.facets, m.facets, m.facetDomainIds, d.domainId, |m.nodes|);
    forall r | 0 <= r < |mesh.boundaryRegions|
      ensures RegionKept(mesh, mesh.boundaryRegions[r], o, o.boundaryRegions[|m.boundaryRegions| + r], d.domainId,
        |m.nodes|)
    {
      PlacedRegionKept(m, d, mesh, r);
    }
    AllPlaced(d.transformToAnalysis, mesh.nodes);
    assert o.nodes[|m.nodes|..|m.nodes| + |mesh.nodes|] == TransformAll(d.transformToAnalysis, mesh.nodes);
  }

  /** The domains there before stay as they are. */
  lemma EarlierAreKept(d: Domain, mesh: Mesh, m: Composed, nodes: nat, elements: nat, facets: nat, regions: nat,
      added: Domain, more: Mesh)
    requires |d.transformToAnalysis| == 16 && |added.transformToAnalysis| == 16
    requires MeshKept(d, mesh, m, nodes, elements, facets, regions)
    ensures MeshKept(d, mesh, AppendDomain(m, added, more), nodes, elements, facets, regions)
  {
    var o := AppendDomain(m, added, more);
    EntriesStay(mesh.elements, m.elements, m.elementDomainIds, d.domainId, elements, nodes,
      Shift(more.elements, |m.nodes|), Repeat(added.domainId, |more.elements|));
    EntriesStay(mesh.facets, m.facets, m.facetDomainIds, d.domainId, facets, nodes,
      Shift(more.facets, |m.nodes|), Repeat(added.domainId, |more.facets|));
    forall r | 0 <= r < |mesh.boundaryRegions|
      ensures RegionKept(mesh, mesh.boundaryRegions[r], o, o.boundaryRegions[regions + r], d.domainId, nodes)
    {
      assert RegionKept(mesh, mesh.boundaryRegions[r], m, m.boundaryRegions[regions + r], d.domainId, nodes);
    }
    assert o.nodes[nodes..nodes + |mesh.nodes|] == m.nodes[nodes..nodes + |mesh.nodes|];
  }

  /** Every local mesh is part of the composed model, once: elements and facets slot by
      slot, regions facet by facet, coordinates as its transform places them. */
  lemma {:induction false} EveryMeshIsKept(request: Request, supplied: map<string, Mesh>, k: nat, d: nat)
    requires ValidRequest(request) && Supplies(request, supplied) && ValidMeshes(request, supplied)
    requires d < k <= |request.domains| && ComposeFirst(request, supplied, k).Success?
    ensures MeshKept(request.domains[d], supplied[request.domains[d].domainId],
      ComposeFirst(request, supplied, k).value, NodesBefore(request, supplied, d), ElementsBefore(request, supplied, d),
      FacetsBefore(request, supplied, d), RegionsBefore(request, supplied, d))
  {
    var m, added := ComposeFirst(request, supplied, k - 1).value, request.domains[k - 1];
    SizesAddUp(request, supplied, k - 1);
    if d == k - 1 {
      AddedIsKept(m, added, supplied[added.domainId]);
    } else {
      EveryMeshIsKept(request, supplied, k - 1, d);
      EarlierAreKept(request.domains[d], supplied[request.domains[d].domainId], m, NodesBefore(request, supplied, d),
        ElementsBefore(request, supplied, d), FacetsBefore(request, supplied, d), RegionsBefore(request, supplied, d),
        added, supplied[added.domainId]);
    }
  }

  // ---------------------------------------------------------------- lengths and volumes

  /** Two points of the mesh, where they are in the model. */
  lemma PlacedGap(d: Domain, mesh: Mesh, m: Composed, nodes: nat, a: nat, b: nat)
    requires |d.transformToAnalysis| == 16 && a < |mesh.nodes| && b < |mesh.nodes|
    requires nodes + |mesh.nodes| <= |m.nodes|
    requires PointsPlaced(d.transformToAnalysis, mesh.nodes, m.nodes[nodes..nodes + |mesh.nodes|])
    ensures m.nodes[nodes + a].Minus(m.nodes[nodes + b])
      == Linear(d.transformToAnalysis, mesh.nodes[a].Minus(mesh.nodes[b]))
  {
    var placed := m.nodes[nodes..nodes + |mesh.nodes|];
    assert placed[a] == m.nodes[nodes + a] && placed[b] == m.nodes[nodes + b];
  }

  /** Validation lets the rows of the linear part be off by a small gap. */
  ghost predicate OnlyTurned(t: seq<real>, gap: real)
    requires |t| == 16
  {
    Rigid(RowOf(t, 0), RowOf(t, 1), RowOf(t, 2), gap)
  }

  ghost predicate AlmostSameDistance(a: Vec3, b: Vec3, c: Vec3, d: Vec3, gap: real) {
    Comparable(SquaredLength(a.Minus(b)), SquaredLength(c.Minus(d)), gap)
  }

  lemma PlacedDistance(d: Domain, mesh: Mesh, m: Composed, nodes: nat, a: nat, b: nat, gap: real)
    requires |d.transformToAnalysis| == 16 && a < |mesh.nodes| && b < |mesh.nodes|
    requires nodes + |mesh.nodes| <= |m.nodes|
    requires PointsPlaced(d.transformToAnalysis, mesh.nodes, m.nodes[nodes..nodes + |mesh.nodes|])
    requires OnlyTurned(d.transformToAnalysis, gap) && 0.0 <= gap && 3.0 * gap < 1.0
    ensures AlmostSameDistance(m.nodes[nodes + a], m.nodes[nodes + b], mesh.nodes[a], mesh.nodes[b], gap)
  {
    PlacedGap(d, mesh, m, nodes, a, b);
    var t := d.transformToAnalysis;
    RigidKeepsLength(RowOf(t, 0), RowOf(t, 1), RowOf(t, 2), mesh.nodes[a].Minus(mesh.nodes[b]), gap);
  }

  /** The nodes from the given one on are as far from each other as the local ones: the
      squared distances differ by no more than three gaps, relatively. */
  ghost predicate DistancesKept(local: seq<Vec3>, nodes: seq<Vec3>, first: nat, gap: real) {
    && first + |local| <= |nodes|
    && forall a, b :: 0 <= a < |local| && 0 <= b < |local| ==>
      AlmostSameDistance(nodes[first + a], nodes[first + b], local[a], local[b], gap)
  }

  lemma PlacedDistances(d: Domain, mesh: Mesh, m: Composed, nodes: nat, elements: nat, facets: nat, regions: nat,
      gap: real)
    requires |d.transformToAnalysis| == 16 && OnlyTurned(d.transformToAnalysis, gap) && 0.0 <= gap && 3.0 * gap < 1.0
    requires MeshKept(d, mesh, m, nodes, elements, facets, regions)
    ensures DistancesKept(mesh.nodes, m.nodes, nodes, gap)
  {
    forall a, b | 0 <= a < |mesh.nodes| && 0 <= b < |mesh.nodes|
      ensures AlmostSameDistance(m.nodes[nodes + a], m.nodes[nodes + b], mesh.nodes[a], mesh.nodes[b], gap)
    {
      PlacedDistance(d, mesh, m, nodes, a, b, gap);
    }
  }

  /** A domain that is only turned and moved keeps all distances in the model: exactly, if
      its transform is exactly rigid, and as well as validation asks for otherwise. */
  lemma DistancesAreKept(request: Request, supplied: map<string, Mesh>, k: nat, d: nat, gap: real)
    requires ValidRequest(request) && Supplies(request, supplied) && ValidMeshes(request, supplied)
    requires d < k <= |request.domains| && ComposeFirst(request, supplied, k).Success?
    requires OnlyTurned(request.domains[d].transformToAnalysis, gap) && 0.0 <= gap && 3.0 * gap < 1.0
    ensures DistancesKept(supplied[request.domains[d].domainId].nodes, ComposeFirst(request, supplied, k).value.nodes,
      NodesBefore(request, supplied, d), gap)
  {
    EveryMeshIsKept(request, supplied, k, d);
    PlacedDistances(request.domains[d], supplied[request.domains[d].domainId], ComposeFirst(request, supplied, k).value,
      NodesBefore(request, supplied, d), ElementsBefore(request, supplied, d), FacetsBefore(request, supplied, d),
      RegionsBefore(request, supplied, d), gap);
  }

  /** The tetrahedron on an entry's first four nodes. */
  function Corners(entry: seq<nat>, nodes: seq<Vec3>): Tetra
    requires |entry| >= 4 && Below(entry, |nodes|)
  {
    Tetra(nodes[entry[0]], nodes[entry[1]], nodes[entry[2]], nodes[entry[3]])
  }

  lemma PlacedCorners(t: seq<real>, local: Tetra, placed: Tetra)
    requires |t| == 16
    requires placed.b.Minus(placed.a) == Linear(t, local.b.Minus(local.a))
    requires placed.c.Minus(placed.a) == Linear(t, local.c.Minus(local.a))
    requires placed.d.Minus(placed.a) == Linear(t, local.d.Minus(local.a))
    ensures Grown(Signed6Volume(placed), Signed6Volume(local), LinearDeterminant(t))
  {
    var u, v, w := local.b.Minus(local.a), local.c.Minus(local.a), local.d.Minus(local.a);
    LinearIsMixed(t, u);
    LinearIsMixed(t, v);
    LinearIsMixed(t, w);
    ProductOfDeterminants(ColumnOf(t, 0), ColumnOf(t, 1), ColumnOf(t, 2), u, v, w);
  }

  function LinearDeterminant(t: seq<real>): real
    requires |t| == 16
  {
    Determinant(ColumnOf(t, 0), ColumnOf(t, 1), ColumnOf(t, 2))
  }

  /** An element lies on the placed nodes of its own, grown by the determinant. */
  ghost predicate ElementGrown(t: seq<real>, local: seq<nat>, nodes: seq<Vec3>, composed: seq<nat>, placed: seq<Vec3>)
    requires |t| == 16
  {
    && |local| >= 4 && |composed| >= 4 && Below(local, |nodes|) && Below(composed, |placed|)
    && Grown(Signed6Volume(Corners(composed, placed)), Signed6Volume(Corners(local, nodes)), LinearDeterminant(t))
  }

  lemma PlacedEdge(d: Domain, mesh: Mesh, m: Composed, offset: nat, local: seq<nat>, composed: seq<nat>, i: nat)
    requires |d.transformToAnalysis| == 16 && i < |local| && Below(local, |mesh.nodes|)
    requires offset + |mesh.nodes| <= |m.nodes| && SameEntry(local, composed, offset)
    requires PointsPlaced(d.transformToAnalysis, mesh.nodes, m.nodes[offset..offset + |mesh.nodes|])
    ensures Below(composed, |m.nodes|)
    ensures m.nodes[composed[i]].Minus(m.nodes[composed[0]])
      == Linear(d.transformToAnalysis, mesh.nodes[local[i]].Minus(mesh.nodes[local[0]]))
  {
    assert local[i] < |mesh.nodes| && local[0] < |mesh.nodes|;
    assert composed[i] == offset + local[i] && composed[0] == offset + local[0];
    PlacedGap(d, mesh, m, offset, local[i], local[0]);
  }

  lemma PlacedElement(d: Domain, mesh: Mesh, m: Composed, offset: nat, local: seq<nat>, composed: seq<nat>)
    requires |d.transformToAnalysis| == 16 && |local| >= 4 && Below(local, |mesh.nodes|)
    requires offset + |mesh.nodes| <= |m.nodes| && SameEntry(local, composed, offset)
    requires PointsPlaced(d.transformToAnalysis, mesh.nodes, m.nodes[offset..offset + |mesh.nodes|])
    ensures ElementGrown(d.transformToAnalysis, local, mesh.nodes, composed, m.nodes)
  {
    PlacedEdge(d, mesh, m, offset, local, composed, 1);
    PlacedEdge(d, mesh, m, offset, local, composed, 2);
    PlacedEdge(d, mesh, m, offset, local, composed, 3);
    PlacedCorners(d.transformToAnalysis, Corners(local, mesh.nodes), Corners(composed, m.nodes));
  }

  /** The elements from the given one on are the local ones, grown. */
  ghost predicate ElementsGrown(t: seq<real>, mesh: Mesh, m: Composed, first: nat)
    requires |t| == 16
  {
    && first + |mesh.elements| <= |m.elements|
    && forall e :: 0 <= e < |mesh.elements| && |mesh.elements[e]| >= 4 ==>
      ElementGrown(t, mesh.elements[e], mesh.nodes, m.elements[first + e], m.nodes)
  }

  lemma PlacedElements(d: Domain, mesh: Mesh, m: Composed, nodes: nat, elements: nat, facets: nat, regions: nat)
    requires |d.transformToAnalysis| == 16 && ValidMesh(mesh)
    requires MeshKept(d, mesh, m, nodes, elements, facets, regions)
    ensures ElementsGrown(d.transformToAnalysis, mesh, m, elements)
  {
    forall e | 0 <= e < |mesh.elements| && |mesh.elements[e]| >= 4
      ensures ElementGrown(d.transformToAnalysis, mesh.elements[e], mesh.nodes, m.elements[elements + e], m.nodes)
    {
      assert SameEntry(mesh.elements[e], m.elements[elements + e], nodes);
      PlacedElement(d, mesh, m, nodes, mesh.elements[e], m.elements[elements + e]);
    }
  }

  /** An element's signed volume in the model is the local one times the determinant of
      its domain's linear part. */
  lemma VolumesGrow(request: Request, supplied: map<string, Mesh>, k: nat, d: nat)
    requires ValidRequest(request) && Supplies(request, supplied) && ValidMeshes(request, supplied)
    requires d < k <= |request.domains| && ComposeFirst(request, supplied, k).Success?
    ensures ElementsGrown(request.domains[d].transformToAnalysis, supplied[request.domains[d].domainId],
      ComposeFirst(request, supplied, k).value, ElementsBefore(request, supplied, d))
  {
    EveryMeshIsKept(request, supplied, k, d);
    PlacedElements(request.domains[d], supplied[request.domains[d].domainId], ComposeFirst(request, supplied, k).value,
      NodesBefore(request, supplied, d), ElementsBefore(request, supplied, d), FacetsBefore(request, supplied, d),
      RegionsBefore(request, supplied, d));
  }
}
