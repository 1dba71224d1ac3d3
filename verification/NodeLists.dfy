/** Which nodes the domains of a composed model list. The concatenation lists all
    nodes of every local mesh; only a weld replaces that by the nodes in use. */
module NodeLists {
  import opened Ascending
  import opened FemModel
  import opened InterfaceWeld
  import opened WeldSoundness
  import opened Compaction
  import opened WeldedModel
  import opened NodeBalance
  import opened Composition

  /** Every node of the local mesh belongs to one of its elements. Mesh validation
      does not ask for this. */
  ghost predicate UsesAllNodes(mesh: Mesh) {
    forall n: nat :: n < |mesh.nodes| ==> n in NodesOf(mesh.elements)
  }

  /** The domain lists exactly the nodes its elements use, each of them once. */
  ghost predicate ListsOwnNodes(elements: seq<seq<nat>>, region: DomainRegion) {
    && Below(region.elementIndices, |elements|) && Distinct(region.nodeIndices)
    && forall n: nat :: n in region.nodeIndices <==> n in DomainNodes(elements, region)
  }

  /** The domain lists exactly the nodes at home in it, each of them once. */
  ghost predicate ListsHome(home: seq<string>, region: DomainRegion) {
    && Distinct(region.nodeIndices)
    && forall n: nat :: n in region.nodeIndices <==> n < |home| && home[n] == region.domainId
  }

  /** The nodes of the boundary region's facets are listed by the domain. */
  predicate FacetsListed(facets: seq<Facet>, region: BoundaryRegion, domain: DomainRegion) {
    && Below(region.facetIndices, |facets|)
    && forall i | 0 <= i < |region.facetIndices| ::
         forall j | 0 <= j < |facets[region.facetIndices[i]]| ::
           facets[region.facetIndices[i]][j] in domain.nodeIndices
  }

  /** Every boundary region is on nodes its own domain lists. */
  ghost predicate BoundaryListed(o: Composed) {
    forall r, d :: 0 <= r < |o.boundaryRegions| && 0 <= d < |o.domainRegions| ==>
      o.boundaryRegions[r].domainId == o.domainRegions[d].domainId ==>
      FacetsListed(o.facets, o.boundaryRegions[r], o.domainRegions[d])
  }

  // ---------------------------------------------------------------- appending one domain

  lemma NumberedMembers(offset: nat, count: nat, n: nat)
    ensures n in Numbered(offset, count) <==> offset <= n < offset + count
    ensures Distinct(Numbered(offset, count))
  {
    if offset <= n < offset + count {
      assert Numbered(offset, count)[n - offset] == n;
    }
  }

  lemma ShiftedNodes(entries: seq<seq<nat>>, offset: nat, n: nat)
    ensures n in NodesOf(Shift(entries, offset)) <==> n >= offset && n - offset in NodesOf(entries)
  {
    var shifted := Shift(entries, offset);
    if n in NodesOf(shifted) {
      var e, i := EntryOfNode(shifted, n);
      NodeOfEntry(entries, e, i);
    }
    if n >= offset && n - offset in NodesOf(entries) {
      var e, i := EntryOfNode(entries, n - offset);
      NodeOfEntry(shifted, e, i);
    }
  }

  lemma PickOld(a: seq<seq<nat>>, b: seq<seq<nat>>, indices: seq<nat>)
    requires Below(indices, |a|)
    ensures Below(indices, |a + b|) && Pick(a + b, indices) == Pick(a, indices)
  {
  }

  lemma PickNew(a: seq<seq<nat>>, b: seq<seq<nat>>)
    ensures Below(Numbered(|a|, |b|), |a + b|) && Pick(a + b, Numbered(|a|, |b|)) == b
  {
  }

  /** A domain that is there keeps listing its own nodes, or failing to. */
  lemma EarlierDomain(m: Composed, d: Domain, mesh: Mesh, region: DomainRegion)
    requires |d.transformToAnalysis| == 16 && Below(region.elementIndices, |m.elements|)
    ensures ListsOwnNodes(AppendDomain(m, d, mesh).elements, region) <==> ListsOwnNodes(m.elements, region)
  {
    PickOld(m.elements, Shift(mesh.elements, |m.nodes|), region.elementIndices);
  }

  /** The domain that is added lists all its nodes, so exactly its own if its mesh
      uses all of them. */
  lemma AddedDomain(m: Composed, d: Domain, mesh: Mesh)
    requires |d.transformToAnalysis| == 16 && ValidMesh(mesh)
    ensures var o := AppendDomain(m, d, mesh);
      ListsOwnNodes(o.elements, o.domainRegions[|m.domainRegions|]) <==> UsesAllNodes(mesh)
  {
    var o := AppendDomain(m, d, mesh);
    var region := o.domainRegions[|m.domainRegions|];
    var shifted := Shift(mesh.elements, |m.nodes|);
    PickNew(m.elements, shifted);
    assert DomainNodes(o.elements, region) == NodesOf(shifted);
    NumberedMembers(|m.nodes|, |mesh.nodes|, 0);
    if UsesAllNodes(mesh) {
      forall n: nat ensures n in region.nodeIndices <==> n in NodesOf(shifted) {
        NumberedMembers(|m.nodes|, |mesh.nodes|, n);
        ShiftedNodes(mesh.elements, |m.nodes|, n);
        if n in NodesOf(shifted) {
          NodeInRange(mesh, n - |m.nodes|);
        }
      }
    }
    if ListsOwnNodes(o.elements, region) {
      forall n: nat | n < |mesh.nodes| ensures n in NodesOf(mesh.elements) {
        NumberedMembers(|m.nodes|, |mesh.nodes|, n + |m.nodes|);
        ShiftedNodes(mesh.elements, |m.nodes|, n + |m.nodes|);
      }
    }
  }

  lemma NodeInRange(mesh: Mesh, n: nat)
    requires ValidMesh(mesh) && n in NodesOf(mesh.elements)
    ensures n < |mesh.nodes|
  {
    var e, i := EntryOfNode(mesh.elements, n);
  }

  lemma HomeAppend(m: Composed, home: seq<string>, d: Domain, mesh: Mesh)
    requires WellFormed(m, home) && |d.transformToAnalysis| == 16 && d.domainId !in DomainIds(m.domainRegions)
    requires forall k :: 0 <= k < |m.domainRegions| ==> ListsHome(home, m.domainRegions[k])
    ensures var o, h := AppendDomain(m, d, mesh), home + Repeat(d.domainId, |mesh.nodes|);
      forall k :: 0 <= k < |o.domainRegions| ==> ListsHome(h, o.domainRegions[k])
  {
    var o, h := AppendDomain(m, d, mesh), home + Repeat(d.domainId, |mesh.nodes|);
    forall k | 0 <= k < |o.domainRegions| ensures ListsHome(h, o.domainRegions[k]) {
      NumberedMembers(|m.nodes|, |mesh.nodes|, 0);
      var region := o.domainRegions[k];
      forall n: nat ensures n in region.nodeIndices <==> n < |h| && h[n] == region.domainId {
        if k < |m.domainRegions| {
          assert DomainIds(m.domainRegions)[k] == region.domainId;
          assert ListsHome(home, region);
        } else {
          NumberedMembers(|m.nodes|, |mesh.nodes|, n);
        }
      }
    }
  }

  // ---------------------------------------------------------------- all domains of a request

  /** After the first `k` domains each lists its home, and exactly its own nodes if
      and only if its mesh uses all of its nodes. */
  lemma {:induction false} ListedFirst(request: Request, supplied: map<string, Mesh>, k: nat)
    requires ValidRequest(request) && Supplies(request, supplied) && ValidMeshes(request, supplied)
    requires k <= |request.domains| && ComposeFirst(request, supplied, k).Success?
    ensures |ComposeFirst(request, supplied, k).value.domainRegions| == k
    ensures var m := ComposeFirst(request, supplied, k).value;
      forall d :: 0 <= d < k ==>
        && ListsHome(HomeFirst(request, supplied, k), m.domainRegions[d])
        && (ListsOwnNodes(m.elements, m.domainRegions[d]) <==> UsesAllNodes(supplied[request.domains[d].domainId]))
  {
    if k > 0 {
      ListedFirst(request, supplied, k - 1);
      ComposedIsWellFormed(request, supplied, k - 1);
      var m, home := ComposeFirst(request, supplied, k - 1).value, HomeFirst(request, supplied, k - 1);
      var added := request.domains[k - 1];
      var mesh := supplied[added.domainId];
      NextIsNew(request, DomainIds(m.domainRegions), k - 1);
      HomeAppend(m, home, added, mesh);
      AddedDomain(m, added, mesh);
      forall d | 0 <= d < k - 1
        ensures ListsOwnNodes(AppendDomain(m, added, mesh).elements, m.domainRegions[d]) <==>
          UsesAllNodes(supplied[request.domains[d].domainId])
      {
        assert ListsElements(m.domainRegions[d], m.elementDomainIds);
        EarlierDomain(m, added, mesh, m.domainRegions[d]);
      }
    }
  }

  /** A facet lies at home in its domain, so the domain lists its nodes. */
  lemma HomeListsBoundary(m: Composed, home: seq<string>)
    requires WellFormed(m, home)
    requires forall d :: 0 <= d < |m.domainRegions| ==> ListsHome(home, m.domainRegions[d])
    ensures BoundaryListed(m)
  {
    forall r, d | 0 <= r < |m.boundaryRegions| && 0 <= d < |m.domainRegions|
      && m.boundaryRegions[r].domainId == m.domainRegions[d].domainId
      ensures FacetsListed(m.facets, m.boundaryRegions[r], m.domainRegions[d])
    {
      var region := m.boundaryRegions[r];
      assert ListsFacets(region, m.facetDomainIds) && ListsHome(home, m.domainRegions[d]);
      forall i | 0 <= i < |region.facetIndices|
        ensures region.facetIndices[i] < |m.facets| && Homed(home, m.facets[region.facetIndices[i]], region.domainId)
      {
        assert m.facetDomainIds[region.facetIndices[i]] == region.domainId;
      }
    }
  }

  // ---------------------------------------------------------------- after a weld

  /** The weld makes every domain list exactly its own nodes. */
  lemma WeldedListsOwn(m: Composed, home: seq<string>, st: WeldState, d: nat)
    requires WellFormed(m, home) && Sound(home, st) && d < |m.domainRegions|
    ensures Compactable(m, st.weld)
    ensures var o := Compacted(m, st.weld); ListsOwnNodes(o.elements, o.domainRegions[d])
  {
    DomainKeepsItsCount(m, home, st, d);
    var own := DomainNodes(Compacted(m, st.weld).elements, m.domainRegions[d]);
    SortedIsSet(own);
  }

  /** A facet's nodes are element nodes of its domain before the weld, so their
      images are nodes its domain lists after it. */
  lemma WeldedFacetNode(m: Composed, home: seq<string>, st: WeldState, d: nat, f: nat, j: nat)
    requires WellFormed(m, home) && Sound(home, st) && d < |m.domainRegions|
    requires f < |m.facets| && j < |m.facets[f]| && m.facetDomainIds[f] == m.domainRegions[d].domainId
    ensures Compactable(m, st.weld)
    ensures var o := Compacted(m, st.weld);
      f < |o.facets| && j < |o.facets[f]| && o.facets[f][j] in o.domainRegions[d].nodeIndices
  {
    SoundCompactable(m, home, st);
    WeldedListsOwn(m, home, st, d);
    SlotsFollowTheirNodes(m, home, st);
    DomainNodesAtHome(m, home, d);
    var o, n := Compacted(m, st.weld), m.facets[f][j];
    assert Homed(home, m.facets[f], m.facetDomainIds[f]);
    assert n in DomainNodes(m.elements, m.domainRegions[d]);
    PickedNodes(m, st.weld, m.domainRegions[d].elementIndices, o.facets[f][j]);
  }

  lemma WeldedBoundary(m: Composed, home: seq<string>, st: WeldState)
    requires WellFormed(m, home) && Sound(home, st)
    ensures Compactable(m, st.weld) && BoundaryListed(Compacted(m, st.weld))
  {
    SoundCompactable(m, home, st);
    var o := Compacted(m, st.weld);
    forall r, d | 0 <= r < |o.boundaryRegions| && 0 <= d < |o.domainRegions|
      && o.boundaryRegions[r].domainId == o.domainRegions[d].domainId
      ensures FacetsListed(o.facets, o.boundaryRegions[r], o.domainRegions[d])
    {
      var region := m.boundaryRegions[r];
      assert ListsFacets(region, m.facetDomainIds);
      forall i, j | 0 <= i < |region.facetIndices| && 0 <= j < |o.facets[region.facetIndices[i]]|
        ensures o.facets[region.facetIndices[i]][j] in o.domainRegions[d].nodeIndices
      {
        WeldedFacetNode(m, home, st, d, region.facetIndices[i], j);
      }
    }
  }
}
