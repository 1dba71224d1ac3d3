/** The composition as the program runs it: shared arrays that each domain
    appends to, and a weld that fills replacement and claim tables and rewrites
    connectivity entry by entry. */
module ModelComposer {
  import opened Wrappers
  import opened Ascending
  import opened FemModel
  import opened InterfaceWeld
  import opened WeldSoundness
  import opened Compaction
  import opened WeldedModel
  import opened SharedTopology
  import opened Composition
  import opened ComposedModel
  import opened Quality

  // ---------------------------------------------------------------- tables

  /** Follow replacements until a node is not replaced. */
  method Resolved(weld: map<nat, nat>, n: nat) returns (current: nat)
    requires weld.Keys !! weld.Values
    ensures current == Resolve(weld, n)
  {
    current := n;
    while current in weld
      invariant current == n || (n in weld && current == weld[n] && current in weld.Values)
      decreases current in weld
    {
      assert weld[current] in weld.Values;
      current := weld[current];
    }
  }

  method IndexRegion(before: map<string, BoundaryRegion>, region: BoundaryRegion)
    returns (regionOf: map<string, BoundaryRegion>)
    ensures regionOf == before + map ref | ref in region.semanticReferenceIds :: region
  {
    var refs := region.semanticReferenceIds;
    regionOf := before;
    for k := 0 to |refs|
      invariant regionOf == before + map ref | ref in refs[..k] :: region
    {
      regionOf := regionOf[refs[k] := region];
      assert refs[..k + 1] == refs[..k] + [refs[k]];
    }
    assert refs[..|refs|] == refs;
  }

  method IndexRegions(regions: seq<BoundaryRegion>) returns (regionOf: map<string, BoundaryRegion>)
    ensures regionOf == RegionsByReference(regions)
  {
    regionOf := map[];
    for r := 0 to |regions|
      invariant regionOf == RegionsByReference(regions[..r])
    {
      regionOf := IndexRegion(regionOf, regions[r]);
      assert regions[..r + 1][..r] == regions[..r];
    }
    assert regions[..|regions|] == regions;
  }

  method CollectFacets(c: Interface, refs: seq<string>) returns (r: Result<seq<Facet>, WeldError>)
    requires c.Valid()
    ensures r == SideFacets(c, refs)
  {
    var facets := [];
    for k := 0 to |refs|
      invariant SideFacets(c, refs[..k]) == Success(facets)
    {
      assert refs[..k + 1][..k] == refs[..k];
      if refs[k] !in c.regionOf {
        SideFacetsFail(c, refs, k + 1);
        return Failure(RegionInvalid);
      }
      facets := facets + RegionFacets(c, c.regionOf[refs[k]]);
    }
    assert refs[..|refs|] == refs;
    return Success(facets);
  }

  lemma {:induction false} SideFacetsFail(c: Interface, refs: seq<string>, k: nat)
    requires c.Valid() && k <= |refs| && SideFacets(c, refs[..k]).Failure?
    ensures SideFacets(c, refs) == SideFacets(c, refs[..k])
    decreases |refs|
  {
    if k < |refs| {
      assert refs[..|refs| - 1][..k] == refs[..k];
      SideFacetsFail(c, refs[..|refs| - 1], k);
    } else {
      assert refs[..k] == refs;
    }
  }

  /** Greedy matching: the candidates of each secondary node are filtered out of
      the primary nodes not yet taken. */
  method MatchNodes(near: (nat, nat) -> bool, secondary: seq<nat>, primary: seq<nat>) returns (r: Option<map<nat, nat>>)
    requires Increasing(secondary)
    ensures r == Matching(near, secondary, primary, |secondary|)
  {
    var local: map<nat, nat>, used := map[], {};
    for k := 0 to |secondary|
      invariant Matching(near, secondary, primary, k) == Some(local) && used == local.Values
    {
      var n := secondary[k];
      var matches := [];
      for p := 0 to |primary|
        invariant matches == Candidates(near, n, primary, used, p)
      {
        if primary[p] !in used && near(n, primary[p]) {
          matches := matches + [primary[p]];
        }
      }
      if |matches| != 1 {
        MatchingFails(near, secondary, primary, k + 1, |secondary|);
        return None;
      }
      FreshMatch(near, secondary, primary, k, local);
      local, used := local[n := matches[0]], used + {matches[0]};
    }
    return Some(local);
  }

  lemma FreshMatch(near: (nat, nat) -> bool, secondary: seq<nat>, primary: seq<nat>, k: nat, local: map<nat, nat>)
    requires k < |secondary| && Increasing(secondary) && Matching(near, secondary, primary, k) == Some(local)
    requires |Candidates(near, secondary[k], primary, local.Values, |primary|)| == 1
    ensures var m := Candidates(near, secondary[k], primary, local.Values, |primary|)[0];
      local[secondary[k] := m].Values == local.Values + {m}
  {
    MatchingSound(near, secondary, primary, k);
    CandidatesSound(near, secondary[k], primary, local.Values, |primary|, 0);
    ExtendedSizes(local, secondary[k], Candidates(near, secondary[k], primary, local.Values, |primary|)[0]);
  }

  method ReplaceConnectivity(entries: seq<seq<nat>>, weld: map<nat, nat>) returns (r: seq<seq<nat>>)
    requires weld.Keys !! weld.Values
    ensures r == Rewrite(weld, entries)
  {
    r := entries;
    for e := 0 to |entries|
      invariant |r| == |entries|
      invariant forall k :: 0 <= k < e ==> r[k] == RewriteEntry(weld, entries[k])
      invariant forall k :: e <= k < |entries| ==> r[k] == entries[k]
    {
      for i := 0 to |entries[e]|
        invariant |r| == |entries| && |r[e]| == |entries[e]|
        invariant forall k :: 0 <= k < |entries| && k != e ==>
          r[k] == if k < e then RewriteEntry(weld, entries[k]) else entries[k]
        invariant forall k :: 0 <= k < i ==> r[e][k] == Resolve(weld, entries[e][k])
        invariant forall k :: i <= k < |entries[e]| ==> r[e][k] == entries[e][k]
      {
        var node := Resolved(weld, r[e][i]);
        r := r[e := r[e][i := node]];
      }
      assert r[e] == RewriteEntry(weld, entries[e]);
    }
  }

  method CompactConnectivity(entries: seq<seq<nat>>, oldToNew: map<nat, nat>, ghost used: set<nat>)
    returns (r: seq<seq<nat>>)
    requires AllIn(entries, used) && oldToNew.Keys == used
    requires forall n :: n in used ==> oldToNew[n] == Rank(used, n)
    ensures r == Renumber(used, entries)
  {
    r := entries;
    for e := 0 to |entries|
      invariant |r| == |entries|
      invariant forall k :: 0 <= k < e ==> r[k] == RenumberEntry(used, entries[k])
      invariant forall k :: e <= k < |entries| ==> r[k] == entries[k]
    {
      for i := 0 to |entries[e]|
        invariant |r| == |entries| && |r[e]| == |entries[e]|
        invariant forall k :: 0 <= k < |entries| && k != e ==>
          r[k] == if k < e then RenumberEntry(used, entries[k]) else entries[k]
        invariant forall k :: 0 <= k < i ==> r[e][k] == Rank(used, entries[e][k])
        invariant forall k :: i <= k < |entries[e]| ==> r[e][k] == entries[e][k]
      {
        r := r[e := r[e][i := oldToNew[r[e][i]]]];
      }
      assert r[e] == RenumberEntry(used, entries[e]);
    }
  }

  /** The surviving nodes in order, and the new number of each. */
  method NumberNodes(nodes: seq<Vec3>, connected: seq<nat>) returns (compacted: seq<Vec3>, oldToNew: map<nat, nat>)
    requires Below(connected, |nodes|) && Increasing(connected)
    ensures compacted == Pick(nodes, connected)
    ensures oldToNew.Keys == set k | 0 <= k < |connected| :: connected[k]
    ensures forall k :: 0 <= k < |connected| ==> oldToNew[connected[k]] == k
  {
    oldToNew, compacted := map[], [];
    for index := 0 to |connected|
      invariant oldToNew.Keys == set k | 0 <= k < index :: connected[k]
      invariant forall k :: 0 <= k < index ==> oldToNew[connected[k]] == k
      invariant |compacted| == index && forall k :: 0 <= k < index ==> compacted[k] == nodes[connected[k]]
    {
      oldToNew := oldToNew[connected[index] := index];
      compacted := compacted + [nodes[connected[index]]];
    }
  }

  /** Nodes, elements and facets already numbered anew. */
  ghost predicate NumberedAnew(before: Composed, nodes: seq<Vec3>, elements: seq<seq<nat>>, facets: seq<Facet>)
    requires Renumberable(before)
  {
    var m := Renumbered(before);
    nodes == m.nodes && elements == m.elements && facets == m.facets && RegionsInRange(before.domainRegions, |elements|)
  }

  method CompactArrays(ghost before: Composed, nodes: seq<Vec3>, elements: seq<seq<nat>>, facets: seq<Facet>)
    returns (compacted: seq<Vec3>, renumberedElements: seq<seq<nat>>, renumberedFacets: seq<Facet>)
    requires Renumberable(before) && before.nodes == nodes && before.elements == elements && before.facets == facets
    ensures NumberedAnew(before, compacted, renumberedElements, renumberedFacets)
  {
    var used := NodesOf(elements);
    var connected := Sorted(used);
    SortedIsSet(used);
    OwnNodes(elements);
    var oldToNew;
    compacted, oldToNew := NumberNodes(nodes, connected);
    RanksTabulated(used, oldToNew);
    renumberedElements := CompactConnectivity(elements, oldToNew, used);
    renumberedFacets := CompactConnectivity(facets, oldToNew, used);
  }

  method ResolveAll(weld: map<nat, nat>, facets: seq<Facet>) returns (r: set<nat>)
    requires weld.Keys !! weld.Values
    ensures r == ResolvedNodes(weld, facets)
  {
    var resolved := ReplaceConnectivity(facets, weld);
    RewrittenNodes(weld, facets);
    return NodesOf(resolved);
  }

  /** One interaction against the tables so far. */
  method AcceptInteraction(c: Interface, i: Interaction, replacement: map<nat, nat>, claimed: set<nat>)
    returns (r: Result<Acceptance, WeldError>)
    requires c.Valid() && i.SharedTopology? && replacement.Keys !! replacement.Values
    ensures r == Accept(c, i, WeldState(replacement, claimed))
  {
    var secondaryFacets :- CollectFacets(c, i.secondaryReferenceIds);
    var primaryFacets :- CollectFacets(c, i.primaryReferenceIds);
    var secondaryNodes := ResolveAll(replacement, secondaryFacets);
    var primaryNodes := ResolveAll(replacement, primaryFacets);
    ghost var s := Sides(secondaryFacets, primaryFacets, secondaryNodes, primaryNodes);
    if |secondaryFacets| == 0 || |secondaryFacets| != |primaryFacets| || |secondaryNodes| != |primaryNodes| {
      return Failure(Nonconformal);
    }
    if (secondaryNodes + primaryNodes) * claimed != {} {
      return Failure(Overlap);
    }
    SortedIsSet(secondaryNodes);
    var matching := MatchNodes(Near(c.nodes, i.positionTolerance), Sorted(secondaryNodes), Sorted(primaryNodes));
    assert matching == MatchSides(c.nodes, s, i.positionTolerance);
    match matching {
      case None => return Failure(Nonconformal);
      case Some(local) =>
        var resolved := ReplaceConnectivity(secondaryFacets, replacement);
        var mapped := Rewrite(local, resolved);
        assert mapped == Mapped(s, replacement, local);
        if !SameTopology(mapped, primaryFacets) {
          return Failure(Nonconformal);
        }
        if !AllOpposed(c.nodes, mapped, primaryFacets) {
          return Failure(OrientationInvalid);
        }
        return Success(Acceptance(local, secondaryNodes + primaryNodes));
    }
  }

  lemma {:induction false} WeldAllFails(c: Interface, interactions: seq<Interaction>, k: nat)
    requires c.Valid() && AllShared(interactions) && k <= |interactions| && WeldAll(c, interactions[..k]).Failure?
    ensures WeldAll(c, interactions) == WeldAll(c, interactions[..k])
    decreases |interactions|
  {
    if k < |interactions| {
      assert interactions[..|interactions| - 1][..k] == interactions[..k];
      WeldAllFails(c, interactions[..|interactions| - 1], k);
    } else {
      assert interactions[..k] == interactions;
    }
  }

  /** The interactions in order, filling the replacement and claim tables. */
  method AcceptAll(c: Interface, ghost home: seq<string>, interactions: seq<Interaction>)
    returns (r: Result<map<nat, nat>, WeldError>)
    requires Admitted(c, home, interactions)
    ensures match WeldAll(c, interactions)
            case Success(st) => r == Success(st.weld) && Sound(home, st)
            case Failure(error) => r == Failure(error)
  {
    var replacement: map<nat, nat>, claimed: set<nat> := map[], {};
    for k := 0 to |interactions|
      invariant Reaches(c, interactions[..k], WeldState(replacement, claimed))
      invariant Sound(home, WeldState(replacement, claimed))
    {
      var accepted := AcceptInteraction(c, interactions[k], replacement, claimed);
      assert interactions[..k + 1][..k] == interactions[..k];
      if accepted.Failure? {
        WeldAllFails(c, interactions, k + 1);
        return Failure(accepted.error);
      }
      AcceptKeepsSound(c, home, interactions[k], WeldState(replacement, claimed), accepted.value);
      replacement := replacement + accepted.value.local;
      claimed := claimed + accepted.value.interfaceNodes;
    }
    assert interactions[..|interactions|] == interactions;
    return Success(replacement);
  }

  // ---------------------------------------------------------------- the shared arrays

  class Composer {
    var nodes: seq<Vec3>
    var elements: seq<seq<nat>>
    var elementDomainIds: seq<string>
    var facets: seq<Facet>
    var facetDomainIds: seq<string>
    var boundaryRegions: seq<BoundaryRegion>
    var domainRegions: seq<DomainRegion>
    var perDomain: seq<DomainQuality>

    function Value(): Composed
      reads this
    {
      Composed(nodes, elements, elementDomainIds, facets, facetDomainIds, boundaryRegions, domainRegions)
    }

    constructor ()
      ensures Value() == EMPTY_MODEL && perDomain == []
    {
      nodes, elements, elementDomainIds, facets, facetDomainIds := [], [], [], [], [];
      boundaryRegions, domainRegions, perDomain := [], [], [];
    }

    /** One turn of the per-domain loop; the offsets are read before any push. */
    method Append(d: Domain, mesh: Mesh)
      requires |d.transformToAnalysis| == 16 && d.cadVolume > 0.0
      modifies this
      ensures Value() == AppendDomain(old(Value()), d, mesh)
      ensures perDomain == old(perDomain) + [RecordOf(d, mesh)]
    {
      var nodeOffset, elementOffset, facetOffset := |nodes|, |elements|, |facets|;
      nodes := nodes + TransformAll(d.transformToAnalysis, mesh.nodes);
      elements := elements + Shift(mesh.elements, nodeOffset);
      elementDomainIds := elementDomainIds + Repeat(d.domainId, |mesh.elements|);
      facets := facets + Shift(mesh.facets, nodeOffset);
      facetDomainIds := facetDomainIds + Repeat(d.domainId, |mesh.facets|);
      domainRegions := domainRegions
        + [DomainRegion(d.domainId, Numbered(elementOffset, |mesh.elements|), Numbered(nodeOffset, |mesh.nodes|))];
      boundaryRegions := boundaryRegions + PlaceRegions(mesh.boundaryRegions, d.domainId, facetOffset);
      var error := RelativeError(mesh.quality.meshVolume, d.cadVolume);
      perDomain := perDomain
        + [DomainQuality(d.domainId, mesh.quality.nodeCount, mesh.quality.elementCount, d.cadVolume,
                         mesh.quality.meshVolume, error, mesh.quality.minimum, mesh.quality.average)];
    }

    /** The weld in place. Whatever refuses it does so before anything is rewritten. */
    method ApplySharedTopology(interactions: seq<Interaction>, ghost home: seq<string>)
      returns (failure: Option<WeldError>)
      requires Weldable(Value(), home, interactions)
      modifies this
      ensures match ApplyWeld(old(Value()), home, interactions)
              case Success(m) => failure == None && Value() == m
              case Failure(error) => failure == Some(error) && Value() == old(Value())
      ensures perDomain == old(perDomain)
    {
      var shared := SharedInOrder(interactions);
      WeldableApplicable(Value(), home, interactions);
      if shared == [] {
        return None;
      }
      var regionOf := IndexRegions(boundaryRegions);
      ApplicableAdmitted(Value(), home, shared);
      ghost var c := InterfaceOf(Value());
      var accepted := AcceptAll(Interface(nodes, facets, regionOf), home, shared);
      if accepted.Failure? {
        return Some(accepted.error);
      }
      ReachedCompactable(Value(), home, shared, WeldAll(c, shared).value);
      elements := ReplaceConnectivity(elements, accepted.value);
      facets := ReplaceConnectivity(facets, accepted.value);
      Compact();
      return None;
    }

    /** Drop the nodes no element uses and renumber the rest in order. */
    method Compact()
      requires Renumberable(Value())
      modifies this
      ensures Value() == Renumbered(old(Value())) && perDomain == old(perDomain)
    {
      ghost var before := Value();
      nodes, elements, facets := CompactArrays(before, nodes, elements, facets);
      RelistDomains();
      RenumberedFields(before, Value());
    }

    method RelistDomains()
      requires RegionsInRange(domainRegions, |elements|)
      modifies this`domainRegions
      ensures domainRegions == Relist(old(domainRegions), elements)
    {
      ghost var before := domainRegions;
      for d := 0 to |domainRegions|
        invariant |domainRegions| == |before|
        invariant forall k :: 0 <= k < d ==> domainRegions[k] == Relist(before, elements)[k]
        invariant forall k :: d <= k < |before| ==> domainRegions[k] == before[k]
      {
        var own := NodesOf(Pick(elements, domainRegions[d].elementIndices));
        domainRegions := domainRegions[d := domainRegions[d].(nodeIndices := Sorted(own))];
      }
    }
  }

  lemma RenumberedFields(before: Composed, after: Composed)
    requires Renumberable(before) && NumberedAnew(before, after.nodes, after.elements, after.facets)
    requires after.domainRegions == Relist(before.domainRegions, after.elements)
    requires after.elementDomainIds == before.elementDomainIds && after.facetDomainIds == before.facetDomainIds
    requires after.boundaryRegions == before.boundaryRegions
    ensures after == Renumbered(before)
  {
  }

  lemma RanksTabulated(used: set<nat>, oldToNew: map<nat, nat>)
    requires oldToNew.Keys == (set k | 0 <= k < |Sorted(used)| :: Sorted(used)[k])
    requires forall k :: 0 <= k < |Sorted(used)| ==> oldToNew[Sorted(used)[k]] == k
    ensures oldToNew.Keys == used && forall n :: n in used ==> oldToNew[n] == Rank(used, n)
  {
    SortedIsSet(used);
    forall n | n in used ensures n in oldToNew && oldToNew[n] == Rank(used, n) {
      assert Sorted(used)[Rank(used, n)] == n;
    }
  }

  // ---------------------------------------------------------------- the whole composition

  method IndexMeshes(meshed: seq<MeshedDomain>) returns (supplied: map<string, Mesh>)
    ensures supplied == Supplied(meshed)
  {
    supplied := map[];
    for k := 0 to |meshed|
      invariant supplied == Supplied(meshed[..k])
    {
      supplied := supplied[meshed[k].domainId := meshed[k].mesh];
      assert meshed[..k + 1][..k] == meshed[..k];
    }
    assert meshed[..|meshed|] == meshed;
  }

  lemma {:induction false} ComposeFirstFails(request: Request, supplied: map<string, Mesh>, k: nat, l: nat)
    requires ValidRequest(request) && Supplies(request, supplied) && k <= l <= |request.domains|
    requires ComposeFirst(request, supplied, k).Failure?
    ensures ComposeFirst(request, supplied, l) == ComposeFirst(request, supplied, k)
  {
    if k < l {
      ComposeFirstFails(request, supplied, k, l - 1);
    }
  }

  /** The per-domain loop over fresh arrays. */
  method AppendAll(composer: Composer, request: Request, supplied: map<string, Mesh>)
    returns (failure: Option<ComposeError>)
    requires ValidRequest(request) && Supplies(request, supplied) && HasVolumes(request)
    requires composer.Value() == EMPTY_MODEL && composer.perDomain == []
    modifies composer
    ensures match ComposeFirst(request, supplied, |request.domains|)
            case Success(m) =>
              failure == None && composer.Value() == m &&
                composer.perDomain == Records(request, supplied, |request.domains|)
            case Failure(error) => failure == Some(error)
  {
    for k := 0 to |request.domains|
      invariant ComposeFirst(request, supplied, k) == Success(composer.Value())
      invariant composer.perDomain == Records(request, supplied, k)
    {
      var d := request.domains[k];
      var mesh := supplied[d.domainId];
      if !SameIdentity(request, d, mesh) {
        ComposeFirstFails(request, supplied, k + 1, |request.domains|);
        return Some(DomainIdentityInvalid);
      }
      composer.Append(d, mesh);
    }
    return None;
  }

  /** A composed model with its quality record. */
  datatype MeasuredModel = MeasuredModel(model: Composed, quality: ModelQuality)

  method ComposeModel(request: Request, meshed: seq<MeshedDomain>) returns (r: Result<MeasuredModel, ComposeError>)
    requires Composable(request, meshed) && request.domains != [] && HasVolumes(request)
    ensures match Compose(request, meshed)
            case Failure(error) => r == Failure(error)
            case Success(o) => r == Success(MeasuredModel(o, QualityOf(request, meshed, o)))
  {
    var supplied := IndexMeshes(meshed);
    if |supplied| != |meshed| || |supplied| != |request.domains|
       || exists d | 0 <= d < |request.domains| :: request.domains[d].domainId !in supplied {
      return Failure(DomainMappingInvalid);
    }
    var composer := new Composer();
    var failure := AppendAll(composer, request, supplied);
    if failure.Some? {
      return Failure(failure.value);
    }
    ComposedWeldable(request, meshed);
    var refused := composer.ApplySharedTopology(request.interactions, HomeFirst(request, supplied, |request.domains|));
    if refused.Some? {
      return Failure(WeldRefused(refused.value));
    }
    ghost var o := composer.Value();
    RecordExists(request, meshed, o);
    var records := Recount(composer.perDomain, composer.domainRegions);
    var quality := Summarize(records, composer.Value());
    return Success(MeasuredModel(composer.Value(), quality));
  }
}
