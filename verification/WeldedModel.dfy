/** What composition hands to the solver after the weld: valid connectivity with
    no unused node, every coordinate within its interface's tolerance, equal
    interfaces in the final numbering, and a node count that balances. */
module WeldedModel {
  import opened Ascending
  import opened FemModel
  import opened InterfaceWeld
  import opened WeldSoundness
  import opened WeldConformity
  import opened Compaction

  // ---------------------------------------------------------------- the model before the weld

  /** One domain id per entry; the nodes of an entry are distinct nodes of its domain. */
  ghost predicate EntriesHomed(home: seq<string>, entries: seq<seq<nat>>, ids: seq<string>) {
    && |ids| == |entries|
    && forall e :: 0 <= e < |entries| ==> Homed(home, entries[e], ids[e]) && Distinct(entries[e])
  }

  /** A domain region lists exactly the elements of its domain. */
  ghost predicate ListsElements(region: DomainRegion, ids: seq<string>) {
    && Below(region.elementIndices, |ids|)
    && (forall i :: 0 <= i < |region.elementIndices| ==> ids[region.elementIndices[i]] == region.domainId)
    && (forall e :: 0 <= e < |ids| && ids[e] == region.domainId ==> e in region.elementIndices)
  }

  /** A boundary region lists facets of its own domain. */
  ghost predicate ListsFacets(region: BoundaryRegion, ids: seq<string>) {
    forall i :: 0 <= i < |region.facetIndices| ==>
      region.facetIndices[i] < |ids| && ids[region.facetIndices[i]] == region.domainId
  }

  function DomainIds(regions: seq<DomainRegion>): (r: seq<string>)
    ensures |r| == |regions|
  {
    seq(|regions|, d requires 0 <= d < |regions| => regions[d].domainId)
  }

  /** `home` gives the domain of every node of the model under composition. */
  ghost predicate WellFormed(m: Composed, home: seq<string>) {
    && |home| == |m.nodes|
    && EntriesHomed(home, m.elements, m.elementDomainIds)
    && EntriesHomed(home, m.facets, m.facetDomainIds)
    && AllIn(m.facets, NodesOf(m.elements))
    && (forall r :: 0 <= r < |m.boundaryRegions| ==> ListsFacets(m.boundaryRegions[r], m.facetDomainIds))
    && (forall d :: 0 <= d < |m.domainRegions| ==> ListsElements(m.domainRegions[d], m.elementDomainIds))
    && Distinct(DomainIds(m.domainRegions))
    && (forall n :: 0 <= n < |home| ==> home[n] in DomainIds(m.domainRegions))
    && (forall e :: 0 <= e < |m.elementDomainIds| ==> m.elementDomainIds[e] in DomainIds(m.domainRegions))
  }

  // ---------------------------------------------------------------- connectivity

  /** The rewritten entries use exactly the images of the old nodes. */
  lemma RewrittenNodes(weld: map<nat, nat>, entries: seq<seq<nat>>)
    ensures NodesOf(Rewrite(weld, entries)) == ResolvedNodes(weld, entries)
  {
    var r := Rewrite(weld, entries);
    forall n | n in NodesOf(r) ensures n in ResolvedNodes(weld, entries) {
      var e, i := EntryOfNode(r, n);
      NodeOfEntry(entries, e, i);
    }
    forall n | n in NodesOf(entries) ensures Resolve(weld, n) in NodesOf(r) {
      var e, i := EntryOfNode(entries, n);
      NodeOfEntry(r, e, i);
    }
  }

  lemma RenumberedNodes(used: set<nat>, entries: seq<seq<nat>>, n: nat)
    requires AllIn(entries, used)
    ensures n in NodesOf(Renumber(used, entries)) <==>
      exists x :: x in NodesOf(entries) && x in used && Rank(used, x) == n
  {
    var r := Renumber(used, entries);
    if n in NodesOf(r) {
      var e, i := EntryOfNode(r, n);
      NodeOfEntry(entries, e, i);
    }
    if x :| x in NodesOf(entries) && x in used && Rank(used, x) == n {
      var e, i := EntryOfNode(entries, x);
      NodeOfEntry(r, e, i);
    }
  }

  lemma SoundCompactable(m: Composed, home: seq<string>, st: WeldState)
    requires WellFormed(m, home) && Sound(home, st)
    ensures Compactable(m, st.weld)
  {
    RewrittenNodes(st.weld, m.elements);
    forall n | n in NodesOf(m.elements) ensures n < |home| {
      var e, i := EntryOfNode(m.elements, n);
      assert Homed(home, m.elements[e], m.elementDomainIds[e]);
    }
    var r := Rewrite(st.weld, m.facets);
    forall e, i | 0 <= e < |r| && 0 <= i < |r[e]| ensures r[e][i] in NodesOf(Rewrite(st.weld, m.elements)) {
      assert m.facets[e][i] in NodesOf(m.elements);
    }
  }

  /** An entry after rewriting and renumbering: in range, and distinct because
      its nodes were distinct nodes of one domain. */
  lemma EntryStaysDistinct(home: seq<string>, st: WeldState, used: set<nat>, entry: seq<nat>, domainId: string)
    requires Sound(home, st) && Homed(home, entry, domainId) && Distinct(entry)
    requires forall i :: 0 <= i < |entry| ==> RewriteEntry(st.weld, entry)[i] in used
    ensures Distinct(RenumberEntry(used, RewriteEntry(st.weld, entry)))
    ensures Below(RenumberEntry(used, RewriteEntry(st.weld, entry)), |used|)
  {
    SortedIsSet(used);
    var r := RewriteEntry(st.weld, entry);
    forall i, j | 0 <= i < j < |entry| ensures Rank(used, r[i]) != Rank(used, r[j]) {
      if Resolve(st.weld, entry[i]) == Resolve(st.weld, entry[j]) {
        ResolveInjectiveOnDomain(home, st, entry[i], entry[j]);
      }
    }
  }

  /** As many entries of the same lengths, each with distinct nodes below `count`. */
  ghost predicate ValidEntries(before: seq<seq<nat>>, after: seq<seq<nat>>, count: nat) {
    && |after| == |before|
    && forall e :: 0 <= e < |after| ==> |after[e]| == |before[e]| && Distinct(after[e]) && Below(after[e], count)
  }

  lemma EntriesStayValid(home: seq<string>, st: WeldState, used: set<nat>, entries: seq<seq<nat>>, ids: seq<string>)
    requires Sound(home, st) && EntriesHomed(home, entries, ids) && AllIn(Rewrite(st.weld, entries), used)
    ensures ValidEntries(entries, Renumber(used, Rewrite(st.weld, entries)), |used|)
  {
    forall e | 0 <= e < |entries|
      ensures Distinct(Renumber(used, Rewrite(st.weld, entries))[e])
      ensures Below(Renumber(used, Rewrite(st.weld, entries))[e], |used|)
    {
      assert Rewrite(st.weld, entries)[e] == RewriteEntry(st.weld, entries[e]);
      EntryStaysDistinct(home, st, used, entries[e], ids[e]);
    }
  }

  /** The entries use exactly the nodes numbered below `count`. */
  ghost predicate UsesExactly(entries: seq<seq<nat>>, count: nat) {
    forall n: nat :: n in NodesOf(entries) <==> n < count
  }

  /** Renumbering a list by its own nodes leaves no number unused. */
  lemma AllRanksUsed(used: set<nat>, entries: seq<seq<nat>>)
    requires AllIn(entries, used) && NodesOf(entries) == used
    ensures UsesExactly(Renumber(used, entries), |used|)
  {
    SortedIsSet(used);
    forall n: nat ensures n in NodesOf(Renumber(used, entries)) <==> n < |used| {
      RenumberedNodes(used, entries, n);
      if n < |used| {
        var x := Sorted(used)[n];
        assert x in used && Rank(used, x) == n;
      }
    }
  }

  /** Every element and facet of the compacted model has distinct nodes that
      exist, and every node that exists is used by an element. */
  lemma ConnectivityIsValid(m: Composed, home: seq<string>, st: WeldState)
    requires WellFormed(m, home) && Sound(home, st)
    ensures Compactable(m, st.weld)
    ensures var o := Compacted(m, st.weld);
      && ValidEntries(m.elements, o.elements, |o.nodes|)
      && ValidEntries(m.facets, o.facets, |o.nodes|)
      && UsesExactly(o.elements, |o.nodes|)
  {
    SoundCompactable(m, home, st);
    var welded := Rewrite(st.weld, m.elements);
    var used := NodesOf(welded);
    OwnNodes(welded);
    SortedMembers(used);
    EntriesStayValid(home, st, used, m.elements, m.elementDomainIds);
    EntriesStayValid(home, st, used, m.facets, m.facetDomainIds);
    AllRanksUsed(used, welded);
  }

  // ---------------------------------------------------------------- which slots coincide

  /** The number a node of the composition carries after the weld. */
  function FinalIndex(m: Composed, weld: map<nat, nat>, n: nat): nat
    requires n in NodesOf(m.elements)
  {
    RewrittenNodes(weld, m.elements);
    Rank(NodesOf(Rewrite(weld, m.elements)), Resolve(weld, n))
  }

  /** Every slot of the entries carries the final number of the node it had. */
  ghost predicate FollowNodes(m: Composed, weld: map<nat, nat>, before: seq<seq<nat>>, after: seq<seq<nat>>) {
    && |after| == |before|
    && forall e, i :: 0 <= e < |before| && 0 <= i < |before[e]| ==>
      && |after[e]| == |before[e]| && before[e][i] in NodesOf(m.elements)
      && after[e][i] == FinalIndex(m, weld, before[e][i])
  }

  lemma SlotsFollowTheirNodes(m: Composed, home: seq<string>, st: WeldState)
    requires WellFormed(m, home) && Sound(home, st)
    ensures Compactable(m, st.weld)
    ensures FollowNodes(m, st.weld, m.elements, Compacted(m, st.weld).elements)
    ensures FollowNodes(m, st.weld, m.facets, Compacted(m, st.weld).facets)
  {
    SoundCompactable(m, home, st);
    OwnNodes(m.elements);
    RewrittenNodes(st.weld, m.elements);
  }

  /** Two nodes get one number exactly when the weld sends them to one node, and
      the numbers keep the order of the surviving nodes. */
  lemma NumbersKeepOrder(m: Composed, weld: map<nat, nat>, n: nat, p: nat)
    requires n in NodesOf(m.elements) && p in NodesOf(m.elements)
    ensures FinalIndex(m, weld, n) < FinalIndex(m, weld, p) <==> Resolve(weld, n) < Resolve(weld, p)
    ensures FinalIndex(m, weld, n) == FinalIndex(m, weld, p) <==> Resolve(weld, n) == Resolve(weld, p)
  {
    RewrittenNodes(weld, m.elements);
    var used := NodesOf(Rewrite(weld, m.elements));
    RankIsOrderPreserving(used, Resolve(weld, n), Resolve(weld, p));
    RankIsOrderPreserving(used, Resolve(weld, p), Resolve(weld, n));
  }

  // ---------------------------------------------------------------- the interfaces

  /** The interactions may be applied to the model: what request validation and
      meshing establish. */
  ghost predicate Applicable(m: Composed, home: seq<string>, interactions: seq<Interaction>) {
    && WellFormed(m, home)
    && AllShared(interactions)
    && forall j :: 0 <= j < |interactions| ==> SidesApart(InterfaceOf(m), interactions[j])
  }

  lemma {:induction false} RegionsByReferenceSound(regions: seq<BoundaryRegion>, ref: string) returns (r: nat)
    requires ref in RegionsByReference(regions)
    ensures r < |regions| && RegionsByReference(regions)[ref] == regions[r] && ref in regions[r].semanticReferenceIds
  {
    var last := |regions| - 1;
    if ref in regions[last].semanticReferenceIds {
      r := last;
    } else {
      r := RegionsByReferenceSound(regions[..last], ref);
    }
  }

  lemma WellFormedInterface(m: Composed, home: seq<string>)
    requires WellFormed(m, home)
    ensures InterfaceOf(m).Valid() && FacetsHomed(InterfaceOf(m), home)
  {
    var c := InterfaceOf(m);
    forall ref | ref in c.regionOf
      ensures Below(c.regionOf[ref].facetIndices, |c.facets|) && RegionHomed(c, home, c.regionOf[ref])
    {
      var r := RegionsByReferenceSound(m.boundaryRegions, ref);
      assert ListsFacets(m.boundaryRegions[r], m.facetDomainIds);
      var region := m.boundaryRegions[r];
      forall i | 0 <= i < |region.facetIndices|
        ensures region.facetIndices[i] < |c.facets| && Homed(home, c.facets[region.facetIndices[i]], region.domainId)
      {
        assert m.facetDomainIds[region.facetIndices[i]] == region.domainId;
      }
    }
  }

  lemma ApplicableAdmitted(m: Composed, home: seq<string>, interactions: seq<Interaction>)
    requires Applicable(m, home, interactions)
    ensures Admitted(InterfaceOf(m), home, interactions)
  {
    WellFormedInterface(m, home);
  }

  ghost predicate OnSecondarySide(c: Interface, i: Interaction, n: nat)
    requires c.Valid() && i.SharedTopology?
  {
    SideFacets(c, i.secondaryReferenceIds).Success? && n in NodesOf(SideFacets(c, i.secondaryReferenceIds).value)
  }

  /** The coordinate of node `n` after the weld is its own, or, if it was merged, at
      most the tolerance of an interaction away whose secondary side it is on. */
  ghost predicate StaysWithinTolerance(m: Composed, interactions: seq<Interaction>, weld: map<nat, nat>, o: Composed,
      n: nat)
    requires InterfaceOf(m).Valid() && AllShared(interactions) && n in NodesOf(m.elements)
  {
    && n < |m.nodes| && FinalIndex(m, weld, n) < |o.nodes|
    && var point := o.nodes[FinalIndex(m, weld, n)];
       if n in weld then
         exists j :: 0 <= j < |interactions| &&
           OnSecondarySide(InterfaceOf(m), interactions[j], n) &&
             Within(m.nodes[n], point, interactions[j].positionTolerance)
       else point == m.nodes[n]
  }

  lemma CoordinateWithinTolerance(m: Composed, home: seq<string>, interactions: seq<Interaction>, st: WeldState, n: nat)
    requires Applicable(m, home, interactions) && InterfaceOf(m).Valid() && Reaches(InterfaceOf(m), interactions, st)
    requires n in NodesOf(m.elements)
    ensures Compactable(m, st.weld) && StaysWithinTolerance(m, interactions, st.weld, Compacted(m, st.weld), n)
  {
    ApplicableAdmitted(m, home, interactions);
    WeldSound(InterfaceOf(m), home, interactions, st);
    SoundCompactable(m, home, st);
    FinalPoint(m, home, st, n);
    if n in st.weld {
      var j := MoveWithinTolerance(InterfaceOf(m), home, interactions, st, n);
      assert OnSecondarySide(InterfaceOf(m), interactions[j], n);
    }
  }

  /** The coordinate a node ends up with is that of the node the weld sends it to. */
  lemma FinalPoint(m: Composed, home: seq<string>, st: WeldState, n: nat)
    requires WellFormed(m, home) && Sound(home, st) && n in NodesOf(m.elements)
    ensures Compactable(m, st.weld)
    ensures n < |m.nodes| && Resolve(st.weld, n) < |m.nodes| &&
      FinalIndex(m, st.weld, n) < |Compacted(m, st.weld).nodes|
    ensures Compacted(m, st.weld).nodes[FinalIndex(m, st.weld, n)] == m.nodes[Resolve(st.weld, n)]
  {
    SoundCompactable(m, home, st);
    RewrittenNodes(st.weld, m.elements);
    var e, i := EntryOfNode(m.elements, n);
    assert Homed(home, m.elements[e], m.elementDomainIds[e]);
    SortedIsSet(NodesOf(Rewrite(st.weld, m.elements)));
  }
}
