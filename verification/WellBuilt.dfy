/** What it means that a model passes validation, whatever order the checks run in: its
    domains share the elements out among themselves, list the nodes of their own, and
    are described by one record each. */
module WellBuilt {
  import opened Wrappers
  import opened Ascending
  import opened FemModel
  import opened Compaction
  import opened WeldedModel
  import opened NodeBalance
  import opened Composition
  import opened NodeLists
  import opened Quality
  import opened ModelValidation

  // ---------------------------------------------------------------- what a good model is

  /** The list has every key once and nothing else. */
  ghost predicate OneEach(ids: seq<string>, keys: set<string>) {
    Distinct(ids) && forall id :: id in ids <==> id in keys
  }

  /** Different nodes of the model, in every element or facet. */
  ghost predicate SoundEntries(entries: seq<seq<nat>>, nodeCount: nat) {
    forall e, i :: 0 <= e < |entries| && 0 <= i < |entries[e]| ==>
      entries[e][i] < nodeCount && forall j :: 0 <= j < i ==> entries[e][j] != entries[e][i]
  }

  /** A node of an element of the given domain. */
  ghost predicate NodeOfDomain(o: Composed, id: string, n: nat)
    requires |o.elementDomainIds| == |o.elements|
  {
    exists e :: 0 <= e < |o.elements| && o.elementDomainIds[e] == id && n in o.elements[e]
  }

  /** The domain lists its own elements and their nodes, each once. */
  ghost predicate ListsItsOwn(o: Composed, region: DomainRegion)
    requires |o.elementDomainIds| == |o.elements|
  {
    && Distinct(region.elementIndices) && Distinct(region.nodeIndices)
    && (forall e: nat :: e in region.elementIndices <==> e < |o.elements| && o.elementDomainIds[e] == region.domainId)
    && (forall n: nat :: n in region.nodeIndices <==> NodeOfDomain(o, region.domainId, n))
  }

  ghost predicate SoundBoundary(o: Composed, region: BoundaryRegion)
    requires |o.elementDomainIds| == |o.elements| && |o.facetDomainIds| == |o.facets|
  {
    && (exists d :: 0 <= d < |o.domainRegions| && o.domainRegions[d].domainId == region.domainId)
    && forall i :: 0 <= i < |region.facetIndices| ==>
      var f := region.facetIndices[i];
      && f < |o.facets| && o.facetDomainIds[f] == region.domainId
      && forall j :: 0 <= j < |o.facets[f]| ==> NodeOfDomain(o, region.domainId, o.facets[f][j])
  }

  ghost predicate CountsOf(q: DomainQuality, region: DomainRegion) {
    && q.domainId == region.domainId
    && q.elementCount == |region.elementIndices| && q.nodeCount == |region.nodeIndices|
  }

  /** The record has the requested volume and the counts of its domain. */
  ghost predicate SoundRecord(o: Composed, q: DomainQuality, domains: map<string, Domain>) {
    && q.domainId in domains && q.cadVolume == domains[q.domainId].cadVolume
    && exists d :: 0 <= d < |o.domainRegions| && CountsOf(q, o.domainRegions[d])
  }

  ghost predicate SoundDomains(o: Composed, domains: map<string, Domain>)
    requires |o.elementDomainIds| == |o.elements|
  {
    && OneEach(DomainIds(o.domainRegions), domains.Keys)
    && (forall d :: 0 <= d < |o.domainRegions| ==> ListsItsOwn(o, o.domainRegions[d]))
    && (forall e :: 0 <= e < |o.elements| ==> o.elementDomainIds[e] in domains)
  }

  ghost predicate SoundModel(o: Composed, q: ModelQuality, domains: map<string, Domain>) {
    && |o.elementDomainIds| == |o.elements| == q.elementCount && |o.facetDomainIds| == |o.facets| == q.facetCount
    && q.nodeCount == |o.nodes| && SoundEntries(o.elements, |o.nodes|) && SoundEntries(o.facets, |o.nodes|)
    && SoundDomains(o, domains) && OneEach(RecordIds(q.perDomain), domains.Keys)
    && (forall r :: 0 <= r < |o.boundaryRegions| ==> SoundBoundary(o, o.boundaryRegions[r]))
    && (forall d :: 0 <= d < |q.perDomain| ==> SoundRecord(o, q.perDomain[d], domains))
  }

  // ---------------------------------------------------------------- lists and sets

  lemma OneEachExactly(ids: seq<string>, keys: set<string>)
    ensures OneEach(ids, keys) <==> |ids| == |keys| && Distinct(ids) && forall i :: 0 <= i < |ids| ==> ids[i] in keys
  {
    var listed := set id | id in ids;
    DistinctSize(ids);
    if OneEach(ids, keys) {
      assert listed == keys;
    }
    if |ids| == |keys| && Distinct(ids) && forall i :: 0 <= i < |ids| ==> ids[i] in keys {
      assert listed <= keys;
      SameSizeSubset(listed, keys);
      assert forall id :: id in ids <==> id in listed;
    }
  }

  lemma {:induction false} ClaimedByOne(regions: seq<DomainRegion>, e: nat)
    ensures e in Claimed(regions) <==> exists d :: 0 <= d < |regions| && e in regions[d].elementIndices
  {
    if regions != [] {
      var last := |regions| - 1;
      ClaimedByOne(regions[..last], e);
      if e in regions[last].elementIndices {
        assert e in Claimed(regions);
      }
      if d :| 0 <= d < last && e in regions[..last][d].elementIndices {
        assert e in regions[d].elementIndices;
      }
      if d :| 0 <= d < |regions| && e in regions[d].elementIndices {
        assert d < last ==> e in regions[..last][d].elementIndices;
      }
    }
  }

  lemma TogetherDistinct(a: seq<nat>, b: seq<nat>)
    requires Distinct(a) && Distinct(b) && forall x :: x in a ==> x !in b
    ensures Distinct(a + b)
  {
    forall i, j | 0 <= i < j < |a + b| ensures (a + b)[i] != (a + b)[j] {
      if i < |a| <= j {
        assert a[i] in a && b[j - |a|] in b;
      }
    }
  }

  /** Lists without repetition of which no two share an element. */
  ghost predicate Apart(regions: seq<DomainRegion>) {
    && (forall d :: 0 <= d < |regions| ==> Distinct(regions[d].elementIndices))
    && (forall d, e, x :: 0 <= d < e < |regions| && x in regions[d].elementIndices ==> x !in regions[e].elementIndices)
  }

  lemma {:induction false} ClaimedOnce(regions: seq<DomainRegion>)
    requires Apart(regions)
    ensures Distinct(Claimed(regions))
  {
    if regions != [] {
      var last := |regions| - 1;
      ClaimedOnce(regions[..last]);
      forall x | x in Claimed(regions[..last]) ensures x !in regions[last].elementIndices {
        ClaimedByOne(regions[..last], x);
      }
      TogetherDistinct(Claimed(regions[..last]), regions[last].elementIndices);
    }
  }

  lemma NumbersExactly(count: nat)
    ensures Increasing(Numbered(0, count)) && Distinct(Numbered(0, count))
    ensures forall n: nat :: n in Numbered(0, count) <==> n < count
  {
    forall n: nat ensures n in Numbered(0, count) <==> n < count {
      NumberedMembers(0, count, n);
    }
  }

  lemma SortedExactly(claimed: seq<nat>)
    ensures var sorted := Sorted(set n | n in claimed);
      Increasing(sorted) && forall n: nat :: n in sorted <==> n in claimed
  {
    var members := set n | n in claimed;
    SortedIsSet(members);
    forall n: nat ensures n in Sorted(members) <==> n in claimed {
      assert n in claimed <==> n in members;
    }
  }

  /** The claims are good exactly if every element is claimed, once. */
  lemma ClaimsExactly(claimed: seq<nat>, count: nat)
    ensures ClaimsAccepted(claimed, count) <==> Distinct(claimed) && forall n: nat :: n in claimed <==> n < count
  {
    SortedExactly(claimed);
    NumbersExactly(count);
    if Distinct(claimed) && forall n: nat :: n in claimed <==> n < count {
      ClaimedAll(claimed, count);
    }
  }

  lemma SameLength<T>(a: seq<T>, b: seq<T>)
    requires Distinct(a) && Distinct(b) && forall x: T :: x in a <==> x in b
    ensures |a| == |b|
  {
    DistinctSize(a);
    DistinctSize(b);
    assert (set x | x in a) == (set x | x in b);
  }

  lemma ClaimedAll(claimed: seq<nat>, count: nat)
    requires Distinct(claimed) && forall n: nat :: n in claimed <==> n < count
    ensures ClaimsAccepted(claimed, count)
  {
    var sorted := Sorted(set n | n in claimed);
    SortedExactly(claimed);
    NumbersExactly(count);
    SameLength(claimed, Numbered(0, count));
    SameLength(claimed, sorted);
    IncreasingMeet(sorted, Numbered(0, count));
  }

  // ---------------------------------------------------------------- the checks

  lemma EntriesExactly(entries: seq<seq<nat>>, nodeCount: nat)
    ensures EntriesAccepted(entries, nodeCount) <==> SoundEntries(entries, nodeCount)
  {
    if SoundEntries(entries, nodeCount) {
      forall e | 0 <= e < |entries| ensures Distinct(entries[e]) && Below(entries[e], nodeCount) {
      }
    }
  }

  /** The nodes of the elements a domain lists are the nodes of the elements it owns. */
  lemma OwnNodes(o: Composed, region: DomainRegion, n: nat)
    requires |o.elementDomainIds| == |o.elements| && Below(region.elementIndices, |o.elements|)
    requires forall e: nat :: e in region.elementIndices <==>
      e < |o.elements| && o.elementDomainIds[e] == region.domainId
    ensures n in DomainNodes(o.elements, region) <==> NodeOfDomain(o, region.domainId, n)
  {
    var picked := Pick(o.elements, region.elementIndices);
    if n in DomainNodes(o.elements, region) {
      var k, j := EntryOfNode(picked, n);
      assert region.elementIndices[k] in region.elementIndices && n in o.elements[region.elementIndices[k]];
    }
    if NodeOfDomain(o, region.domainId, n) {
      var e :| 0 <= e < |o.elements| && o.elementDomainIds[e] == region.domainId && n in o.elements[e];
      assert e in region.elementIndices;
      var i :| 0 <= i < |region.elementIndices| && region.elementIndices[i] == e;
      assert picked[i] == o.elements[e] && picked[i] in picked;
    }
  }

  lemma ListsExactly(o: Composed, region: DomainRegion)
    requires |o.elementDomainIds| == |o.elements| && Below(region.elementIndices, |o.elements|)
    requires forall e: nat :: e in region.elementIndices <==>
      e < |o.elements| && o.elementDomainIds[e] == region.domainId
    requires Distinct(region.elementIndices)
    ensures ListsItsOwn(o, region) <==> Distinct(region.nodeIndices) && NodesConnected(o.elements, region)
  {
    forall n: nat ensures n in DomainNodes(o.elements, region) <==> NodeOfDomain(o, region.domainId, n) {
      OwnNodes(o, region, n);
    }
    if Distinct(region.nodeIndices) {
      ConnectedExactly(o.elements, region);
    }
  }

  lemma AllListed(o: Composed, domains: map<string, Domain>, d: nat, e: nat)
    requires LengthsAccepted(o) && d < |o.domainRegions| && Distinct(DomainIds(o.domainRegions))
    requires forall k :: 0 <= k < |o.domainRegions| ==> RegionAccepted(o, domains, o.domainRegions[k])
    requires ClaimsAccepted(Claimed(o.domainRegions), |o.elements|)
    ensures e in o.domainRegions[d].elementIndices <==>
      e < |o.elements| && o.elementDomainIds[e] == o.domainRegions[d].domainId
  {
    ClaimsExactly(Claimed(o.domainRegions), |o.elements|);
    ClaimedByOne(o.domainRegions, e);
    assert RegionAccepted(o, domains, o.domainRegions[d]);
    if e < |o.elements| && o.elementDomainIds[e] == o.domainRegions[d].domainId {
      var k :| 0 <= k < |o.domainRegions| && e in o.domainRegions[k].elementIndices;
      assert RegionAccepted(o, domains, o.domainRegions[k]);
      assert DomainIds(o.domainRegions)[k] == DomainIds(o.domainRegions)[d];
    }
  }

  lemma AcceptedDomainsSound(o: Composed, q: ModelQuality, domains: map<string, Domain>)
    requires LengthsAccepted(o) && DomainsAccepted(o, q, domains)
    ensures SoundDomains(o, domains)
  {
    var ids := DomainIds(o.domainRegions);
    forall d | 0 <= d < |ids| ensures ids[d] in domains.Keys {
      assert RegionAccepted(o, domains, o.domainRegions[d]);
    }
    assert |domains.Keys| == |domains|;
    OneEachExactly(ids, domains.Keys);
    forall d | 0 <= d < |o.domainRegions| ensures ListsItsOwn(o, o.domainRegions[d]) {
      assert RegionAccepted(o, domains, o.domainRegions[d]);
      forall e: nat ensures e in o.domainRegions[d].elementIndices <==>
        e < |o.elements| && o.elementDomainIds[e] == o.domainRegions[d].domainId
      {
        AllListed(o, domains, d, e);
      }
      ListsExactly(o, o.domainRegions[d]);
    }
  }

  lemma SoundClaims(o: Composed, domains: map<string, Domain>)
    requires LengthsAccepted(o) && SoundDomains(o, domains)
    ensures ClaimsAccepted(Claimed(o.domainRegions), |o.elements|)
  {
    var regions, ids := o.domainRegions, DomainIds(o.domainRegions);
    forall d, e, x | 0 <= d < e < |regions| && x in regions[d].elementIndices ensures x !in regions[e].elementIndices {
      assert ListsItsOwn(o, regions[d]) && ListsItsOwn(o, regions[e]);
      assert ids[d] != ids[e];
    }
    forall d | 0 <= d < |regions| ensures Distinct(regions[d].elementIndices) {
      assert ListsItsOwn(o, regions[d]);
    }
    ClaimedOnce(regions);
    forall n: nat ensures n in Claimed(regions) <==> n < |o.elements| {
      ClaimedByOne(regions, n);
      if n in Claimed(regions) {
        var d :| 0 <= d < |regions| && n in regions[d].elementIndices;
        assert ListsItsOwn(o, regions[d]);
      }
      if n < |o.elements| {
        assert o.elementDomainIds[n] in ids;
        var d :| 0 <= d < |ids| && ids[d] == o.elementDomainIds[n];
        assert ListsItsOwn(o, regions[d]) && n in regions[d].elementIndices;
      }
    }
    ClaimsExactly(Claimed(regions), |o.elements|);
  }

  lemma SoundRegion(o: Composed, domains: map<string, Domain>, d: nat)
    requires LengthsAccepted(o) && SoundDomains(o, domains) && EntriesAccepted(o.elements, |o.nodes|)
    requires d < |o.domainRegions|
    ensures RegionAccepted(o, domains, o.domainRegions[d])
  {
    var region := o.domainRegions[d];
    assert ListsItsOwn(o, region);
    assert DomainIds(o.domainRegions)[d] in DomainIds(o.domainRegions);
    forall i | 0 <= i < |region.elementIndices|
      ensures region.elementIndices[i] < |o.elements|
      ensures o.elementDomainIds[region.elementIndices[i]] == region.domainId
    {
      assert region.elementIndices[i] in region.elementIndices;
    }
    ListsExactly(o, region);
    forall i | 0 <= i < |region.nodeIndices| ensures region.nodeIndices[i] < |o.nodes| {
      assert region.nodeIndices[i] in region.nodeIndices;
      var e :| 0 <= e < |o.elements| && region.nodeIndices[i] in o.elements[e];
      assert Below(o.elements[e], |o.nodes|);
    }
  }

  lemma SoundDomainsAccepted(o: Composed, q: ModelQuality, domains: map<string, Domain>)
    requires LengthsAccepted(o) && SoundDomains(o, domains) && EntriesAccepted(o.elements, |o.nodes|)
    requires OneEach(RecordIds(q.perDomain), domains.Keys)
    ensures DomainsAccepted(o, q, domains)
  {
    assert |domains.Keys| == |domains|;
    OneEachExactly(DomainIds(o.domainRegions), domains.Keys);
    OneEachExactly(RecordIds(q.perDomain), domains.Keys);
    SoundClaims(o, domains);
    forall d | 0 <= d < |o.domainRegions| ensures RegionAccepted(o, domains, o.domainRegions[d]) {
      SoundRegion(o, domains, d);
    }
  }

  /** Looking a domain up finds its only region. */
  lemma OnlyRegion(regions: seq<DomainRegion>, d: nat)
    requires Distinct(DomainIds(regions)) && d < |regions|
    ensures FindRegion(regions, regions[d].domainId, 0) == Some(d)
  {
    FindsOwnRegion(regions, d, 0);
  }

  lemma BoundaryExactly(o: Composed, domains: map<string, Domain>, region: BoundaryRegion)
    requires LengthsAccepted(o) && SoundDomains(o, domains)
    ensures BoundaryAccepted(o, region) <==> SoundBoundary(o, region)
  {
    if d :| 0 <= d < |o.domainRegions| && o.domainRegions[d].domainId == region.domainId {
      OnlyRegion(o.domainRegions, d);
      assert ListsItsOwn(o, o.domainRegions[d]);
    }
  }

  lemma RecordExactly(o: Composed, domains: map<string, Domain>, q: DomainQuality)
    requires LengthsAccepted(o) && SoundDomains(o, domains)
    ensures RecordAccepted(o, domains, q) <==> SoundRecord(o, q, domains)
  {
    var found := FindRegion(o.domainRegions, q.domainId, 0);
    if found.Some? && RecordAccepted(o, domains, q) {
      assert CountsOf(q, o.domainRegions[found.value]);
    }
    if d :| 0 <= d < |o.domainRegions| && CountsOf(q, o.domainRegions[d]) {
      OnlyRegion(o.domainRegions, d);
    }
  }

  lemma RecordsNamed(o: Composed, q: ModelQuality, domains: map<string, Domain>)
    requires |q.perDomain| == |domains| && Distinct(RecordIds(q.perDomain))
    requires forall d :: 0 <= d < |q.perDomain| ==> q.perDomain[d].domainId in domains
    ensures OneEach(RecordIds(q.perDomain), domains.Keys)
  {
    assert |domains.Keys| == |domains|;
    OneEachExactly(RecordIds(q.perDomain), domains.Keys);
  }

  lemma AcceptedIsSound(o: Composed, q: ModelQuality, domains: map<string, Domain>)
    requires Refusal(o, q, domains).None?
    ensures SoundModel(o, q, domains)
  {
    EntriesExactly(o.elements, |o.nodes|);
    EntriesExactly(o.facets, |o.nodes|);
    AcceptedDomainsSound(o, q, domains);
    forall r | 0 <= r < |o.boundaryRegions| ensures SoundBoundary(o, o.boundaryRegions[r]) {
      BoundaryExactly(o, domains, o.boundaryRegions[r]);
    }
    forall d | 0 <= d < |q.perDomain| ensures SoundRecord(o, q.perDomain[d], domains) {
      RecordExactly(o, domains, q.perDomain[d]);
    }
    RecordsNamed(o, q, domains);
  }

  lemma AllPassed(o: Composed, q: ModelQuality, domains: map<string, Domain>)
    requires LengthsAccepted(o) && EntriesAccepted(o.elements, |o.nodes|) && EntriesAccepted(o.facets, |o.nodes|)
    requires CountsAccepted(o, q) && DomainsAccepted(o, q, domains)
    requires forall r :: 0 <= r < |o.boundaryRegions| ==> BoundaryAccepted(o, o.boundaryRegions[r])
    requires forall d :: 0 <= d < |q.perDomain| ==> RecordAccepted(o, domains, q.perDomain[d])
    ensures Refusal(o, q, domains).None?
  {
  }

  lemma SoundIsAccepted(o: Composed, q: ModelQuality, domains: map<string, Domain>)
    requires SoundModel(o, q, domains)
    ensures Refusal(o, q, domains).None?
  {
    EntriesExactly(o.elements, |o.nodes|);
    EntriesExactly(o.facets, |o.nodes|);
    SoundDomainsAccepted(o, q, domains);
    forall r | 0 <= r < |o.boundaryRegions| ensures BoundaryAccepted(o, o.boundaryRegions[r]) {
      BoundaryExactly(o, domains, o.boundaryRegions[r]);
    }
    forall d | 0 <= d < |q.perDomain| ensures RecordAccepted(o, domains, q.perDomain[d]) {
      RecordExactly(o, domains, q.perDomain[d]);
    }
    AllPassed(o, q, domains);
  }

  /** A model passes validation exactly if it is sound: its domains are the requested
      ones, every element belongs to one of them, each lists its own elements and their
      nodes, and boundary regions and records agree with that. */
  lemma SoundExactly(o: Composed, q: ModelQuality, domains: map<string, Domain>)
    ensures Refusal(o, q, domains).None? <==> SoundModel(o, q, domains)
  {
    if Refusal(o, q, domains).None? {
      AcceptedIsSound(o, q, domains);
    }
    if SoundModel(o, q, domains) {
      SoundIsAccepted(o, q, domains);
    }
  }

  /** What a refusal tells: the first of the kinds of faults that the model has. */
  lemma RefusedExactly(o: Composed, q: ModelQuality, domains: map<string, Domain>)
    ensures var lengths := |o.elementDomainIds| == |o.elements| && |o.facetDomainIds| == |o.facets|;
      var entries := SoundEntries(o.elements, |o.nodes|) && SoundEntries(o.facets, |o.nodes|);
      var counts := q.nodeCount == |o.nodes| && q.elementCount == |o.elements| && q.facetCount == |o.facets|;
      && (Refusal(o, q, domains) == Some(ModelInvalid) <==> !lengths)
      && (Refusal(o, q, domains) == Some(ConnectivityInvalid) <==> lengths && !entries)
      && (lengths && entries && !counts ==> Refusal(o, q, domains) == Some(QualityInvalid))
      && (lengths && entries && counts && !SoundDomains(o, domains) ==>
            Refusal(o, q, domains) == Some(ModelError.DomainMappingInvalid))
      && (lengths && entries && counts && SoundDomains(o, domains) && OneEach(RecordIds(q.perDomain), domains.Keys) ==>
            (Refusal(o, q, domains) == Some(BoundaryMappingInvalid) <==>
             exists r :: 0 <= r < |o.boundaryRegions| && !SoundBoundary(o, o.boundaryRegions[r])))
  {
    EntriesExactly(o.elements, |o.nodes|);
    EntriesExactly(o.facets, |o.nodes|);
    if LengthsAccepted(o) && EntriesAccepted(o.elements, |o.nodes|) {
      if DomainsAccepted(o, q, domains) {
        AcceptedDomainsSound(o, q, domains);
      }
      if SoundDomains(o, domains) && OneEach(RecordIds(q.perDomain), domains.Keys) {
        SoundDomainsAccepted(o, q, domains);
        forall r | 0 <= r < |o.boundaryRegions|
          ensures BoundaryAccepted(o, o.boundaryRegions[r]) <==> SoundBoundary(o, o.boundaryRegions[r])
        {
          BoundaryExactly(o, domains, o.boundaryRegions[r]);
        }
      }
    }
  }
}
