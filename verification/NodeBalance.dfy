/** Counting nodes across the weld: a domain keeps as many nodes as its elements
    used before, and the domains together list as many nodes as the model holds
    plus one for each merged pair. */
module NodeBalance {
  import opened Wrappers
  import opened Ascending
  import opened FemModel
  import opened InterfaceWeld
  import opened WeldSoundness
  import opened WeldConformity
  import opened Compaction
  import opened WeldedModel

  /** The nodes a domain's elements use. */
  function DomainNodes(elements: seq<seq<nat>>, region: DomainRegion): set<nat>
    requires Below(region.elementIndices, |elements|)
  {
    NodesOf(Pick(elements, region.elementIndices))
  }

  /** The sum of `nodeIndices.length` over the domains. */
  function ListedNodes(regions: seq<DomainRegion>): nat {
    if regions == [] then 0
    else ListedNodes(regions[..|regions| - 1]) + |regions[|regions| - 1].nodeIndices|
  }

  /** The element nodes of one domain are the element nodes at home in it. */
  lemma DomainNodesAtHome(m: Composed, home: seq<string>, d: nat)
    requires WellFormed(m, home) && d < |m.domainRegions|
    ensures Below(m.domainRegions[d].elementIndices, |m.elements|)
    ensures forall n :: n in DomainNodes(m.elements, m.domainRegions[d]) <==>
      n in NodesOf(m.elements) && n < |home| && home[n] == m.domainRegions[d].domainId
  {
    var region := m.domainRegions[d];
    var own := Pick(m.elements, region.elementIndices);
    assert ListsElements(region, m.elementDomainIds);
    forall n | n in NodesOf(own)
      ensures n in NodesOf(m.elements) && n < |home| && home[n] == region.domainId
    {
      var k, i := EntryOfNode(own, n);
      NodeOfEntry(m.elements, region.elementIndices[k], i);
      assert Homed(home, m.elements[region.elementIndices[k]], region.domainId);
    }
    forall n | n in NodesOf(m.elements) && n < |home| && home[n] == region.domainId ensures n in NodesOf(own) {
      var e, i := EntryOfNode(m.elements, n);
      assert Homed(home, m.elements[e], m.elementDomainIds[e]);
      assert e in region.elementIndices;
      var k :| 0 <= k < |region.elementIndices| && region.elementIndices[k] == e;
      assert own[k] == m.elements[e];
      NodeOfEntry(own, k, i);
    }
  }

  lemma PickedNodes(m: Composed, weld: map<nat, nat>, indices: seq<nat>, n: nat)
    requires Compactable(m, weld) && Below(indices, |m.elements|)
    ensures n in NodesOf(Pick(Compacted(m, weld).elements, indices)) <==>
      exists x :: x in NodesOf(Pick(m.elements, indices)) && x in NodesOf(m.elements) && FinalIndex(m, weld, x) == n
  {
    var used := NodesOf(Rewrite(weld, m.elements));
    var before, after := Pick(m.elements, indices), Pick(Compacted(m, weld).elements, indices);
    if n in NodesOf(after) {
      var k, i := EntryOfNode(after, n);
      NodeOfEntry(before, k, i);
      NodeOfEntry(m.elements, indices[k], i);
      assert FinalIndex(m, weld, before[k][i]) == n;
    }
    if x :| x in NodesOf(before) && x in NodesOf(m.elements) && FinalIndex(m, weld, x) == n {
      var k, i := EntryOfNode(before, x);
      NodeOfEntry(after, k, i);
    }
  }

  /** Merging never changes how many nodes a domain uses. */
  lemma DomainKeepsItsCount(m: Composed, home: seq<string>, st: WeldState, d: nat)
    requires WellFormed(m, home) && Sound(home, st) && d < |m.domainRegions|
    ensures Compactable(m, st.weld) && Below(m.domainRegions[d].elementIndices, |m.elements|)
    ensures Compacted(m, st.weld).domainRegions[d].nodeIndices
         == Sorted(DomainNodes(Compacted(m, st.weld).elements, m.domainRegions[d]))
    ensures |Compacted(m, st.weld).domainRegions[d].nodeIndices| == |DomainNodes(m.elements, m.domainRegions[d])|
  {
    SoundCompactable(m, home, st);
    DomainNodesAtHome(m, home, d);
    var region := m.domainRegions[d];
    var before, after := DomainNodes(m.elements, region), DomainNodes(Compacted(m, st.weld).elements, region);
    var f := (n: nat) => if n in NodesOf(m.elements) then FinalIndex(m, st.weld, n) else 0;
    forall x, y | x in before && y in before && f(x) == f(y) ensures x == y {
      NumbersKeepOrder(m, st.weld, x, y);
      ResolveInjectiveOnDomain(home, st, x, y);
    }
    forall n ensures n in after <==> exists x :: x in before && f(x) == n {
      if n >= 0 {
        PickedNodes(m, st.weld, region.elementIndices, n);
      }
    }
    assert after == set x | x in before :: f(x);
    ImageSize(before, after, f);
    SortedMembers(after);
  }

  // ---------------------------------------------------------------- summing over the domains

  function AtHome(nodes: set<nat>, home: seq<string>, domainId: string): set<nat> {
    set n | n in nodes && n < |home| && home[n] == domainId
  }

  function AtHomeIn(nodes: set<nat>, home: seq<string>, ids: seq<string>): set<nat> {
    set n | n in nodes && n < |home| && home[n] in ids
  }

  lemma OneMoreDomain(nodes: set<nat>, home: seq<string>, ids: seq<string>, id: string)
    requires id !in ids
    ensures |AtHomeIn(nodes, home, ids + [id])| == |AtHomeIn(nodes, home, ids)| + |AtHome(nodes, home, id)|
  {
    var before, added := AtHomeIn(nodes, home, ids), AtHome(nodes, home, id);
    assert before !! added;
    assert AtHomeIn(nodes, home, ids + [id]) == before + added;
  }

  lemma {:induction false} SumByDomain(nodes: set<nat>, home: seq<string>, regions: seq<DomainRegion>)
    requires Distinct(DomainIds(regions))
    requires forall d :: 0 <= d < |regions| ==> |regions[d].nodeIndices| == |AtHome(nodes, home, regions[d].domainId)|
    ensures ListedNodes(regions) == |AtHomeIn(nodes, home, DomainIds(regions))|
  {
    if regions == [] {
      assert AtHomeIn(nodes, home, DomainIds(regions)) == {};
    } else {
      var init, last := regions[..|regions| - 1], regions[|regions| - 1];
      var ids := DomainIds(init);
      assert DomainIds(regions) == ids + [last.domainId];
      assert ids == DomainIds(regions)[..|init|];
      forall d | 0 <= d < |ids| ensures ids[d] != last.domainId {
        assert DomainIds(regions)[d] != DomainIds(regions)[|init|];
      }
      SumByDomain(nodes, home, init);
      OneMoreDomain(nodes, home, ids, last.domainId);
    }
  }

  // ---------------------------------------------------------------- the merged pairs

  lemma {:induction false} SideNodeOfFacets(c: Interface, refs: seq<string>, n: nat)
    requires c.Valid() && SideFacets(c, refs).Success? && n in NodesOf(SideFacets(c, refs).value)
    ensures n in NodesOf(c.facets)
  {
    var facets := SideFacets(c, refs).value;
    var k, i := EntryOfNode(facets, n);
    var init, last := refs[..|refs| - 1], refs[|refs| - 1];
    var before := SideFacets(c, init).value;
    if k < |before| {
      NodeOfEntry(before, k, i);
      SideNodeOfFacets(c, init, n);
    } else {
      NodeOfEntry(c.facets, c.regionOf[last].facetIndices[k - |before|], i);
    }
  }

  lemma FacetNodesUsed(m: Composed, home: seq<string>, n: nat)
    requires WellFormed(m, home) && n in NodesOf(m.facets)
    ensures n in NodesOf(m.elements)
  {
  }

  /** Both nodes of every merged pair are element nodes. */
  lemma MergedNodesUsed(m: Composed, home: seq<string>, interactions: seq<Interaction>, st: WeldState, n: nat)
    requires Applicable(m, home, interactions) && InterfaceOf(m).Valid() && Reaches(InterfaceOf(m), interactions, st)
    requires n in st.weld
    ensures n in NodesOf(m.elements) && st.weld[n] in NodesOf(m.elements)
  {
    var c := InterfaceOf(m);
    ApplicableAdmitted(m, home, interactions);
    var j := MoveWithinTolerance(c, home, interactions, st, n);
    AllConform(c, home, interactions, st, j);
    SideNodeOfFacets(c, interactions[j].secondaryReferenceIds, n);
    SideNodeOfFacets(c, interactions[j].primaryReferenceIds, st.weld[n]);
    FacetNodesUsed(m, home, n);
    FacetNodesUsed(m, home, st.weld[n]);
  }

  /** Merging removes exactly the moved nodes from those in use. */
  lemma SurvivingNodes(used: set<nat>, elements: seq<seq<nat>>, weld: map<nat, nat>)
    requires used == NodesOf(elements) && weld.Keys !! weld.Values
    requires forall n :: n in weld ==> n in used && weld[n] in used
    ensures ResolvedNodes(weld, elements) == used - weld.Keys
  {
  }

  lemma RemovedSize(used: set<nat>, removed: set<nat>)
    requires removed <= used
    ensures |used - removed| == |used| - |removed|
  {
  }

  lemma ElementNodesAtHome(m: Composed, home: seq<string>)
    requires WellFormed(m, home)
    ensures AtHomeIn(NodesOf(m.elements), home, DomainIds(m.domainRegions)) == NodesOf(m.elements)
  {
  }

  /** Node conservation: what the domains list exceeds what the model holds by
      the number of merged pairs. */
  lemma NodesBalance(m: Composed, home: seq<string>, interactions: seq<Interaction>, st: WeldState)
    requires Applicable(m, home, interactions) && InterfaceOf(m).Valid() && Reaches(InterfaceOf(m), interactions, st)
    ensures Compactable(m, st.weld)
    ensures ListedNodes(Compacted(m, st.weld).domainRegions) == |Compacted(m, st.weld).nodes| + |st.weld|
  {
    var used := NodesOf(m.elements);
    ApplicableAdmitted(m, home, interactions);
    WeldSound(InterfaceOf(m), home, interactions, st);
    SoundCompactable(m, home, st);
    var o := Compacted(m, st.weld);
    forall d | 0 <= d < |o.domainRegions|
      ensures |o.domainRegions[d].nodeIndices| == |AtHome(used, home, o.domainRegions[d].domainId)|
    {
      DomainKeepsItsCount(m, home, st, d);
      DomainNodesAtHome(m, home, d);
      assert DomainNodes(m.elements, m.domainRegions[d]) == AtHome(used, home, o.domainRegions[d].domainId);
    }
    assert DomainIds(o.domainRegions) == DomainIds(m.domainRegions);
    SumByDomain(used, home, o.domainRegions);
    ElementNodesAtHome(m, home);
    forall n | n in st.weld ensures n in used && st.weld[n] in used {
      MergedNodesUsed(m, home, interactions, st, n);
    }
    SurvivingNodes(used, m.elements, st.weld);
    RemovedSize(used, st.weld.Keys);
    RewrittenNodes(st.weld, m.elements);
    SortedMembers(NodesOf(Rewrite(st.weld, m.elements)));
  }
}
