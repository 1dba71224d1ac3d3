/** What accepting shared-topology interactions guarantees: the matching is a
    bijection, the two sides become one set of facets, and the replacements
    stay one link deep and injective on every domain. */
module WeldSoundness {
  import opened Wrappers
  import opened Ascending
  import opened FemModel
  import opened InterfaceWeld

  ghost predicate Injective(m: map<nat, nat>) {
    forall x, y :: x in m && y in m && m[x] == m[y] ==> x == y
  }

  lemma ExtendedSizes(local: map<nat, nat>, n: nat, m: nat)
    requires n !in local && m !in local.Values
    ensures local[n := m].Values == local.Values + {m}
    ensures |local[n := m].Keys| == |local.Keys| + 1
    ensures |local[n := m].Values| == |local.Values| + 1
  {
    var after := local[n := m];
    assert after.Keys == local.Keys + {n};
    forall v | v in local.Values + {m} ensures v in after.Values {
      var x :| (x == n && v == m) || (x in local && local[x] == v);
      assert x in after && after[x] == v;
    }
    forall v | v in after.Values ensures v in local.Values + {m} {
      var x :| x in after && after[x] == v;
      assert x == n || (x in local && local[x] == v);
    }
    assert after.Values == local.Values + {m};
  }

  /** Pairing a new node with an unused one keeps a matching injective. */
  lemma ExtendMatching(local: map<nat, nat>, n: nat, m: nat)
    requires Injective(local) && n !in local && m !in local.Values
    ensures Injective(local[n := m])
  {
  }

  ghost predicate Related(near: (nat, nat) -> bool, local: map<nat, nat>) {
    forall n :: n in local ==> near(n, local[n])
  }

  ghost predicate CoversPrefix(secondary: seq<nat>, k: nat, local: map<nat, nat>)
    requires k <= |secondary|
  {
    && (forall j :: 0 <= j < k ==> secondary[j] in local)
    && (forall j :: k <= j < |secondary| ==> secondary[j] !in local)
  }

  ghost predicate SoundMatching(near: (nat, nat) -> bool, secondary: seq<nat>, primary: seq<nat>, k: nat,
      local: map<nat, nat>)
    requires k <= |secondary|
  {
    && CoversPrefix(secondary, k, local)
    && |local.Keys| == |local.Values| == k
    && Injective(local)
    && Related(near, local)
    && LandsIn(local, primary)
  }

  ghost predicate LandsIn(local: map<nat, nat>, primary: seq<nat>) {
    forall n :: n in local ==> local[n] in primary
  }

  lemma CoversOneMore(secondary: seq<nat>, k: nat, local: map<nat, nat>, m: nat)
    requires k < |secondary| && Increasing(secondary) && CoversPrefix(secondary, k, local)
    ensures CoversPrefix(secondary, k + 1, local[secondary[k] := m])
  {
  }

  lemma RelatedOneMore(near: (nat, nat) -> bool, primary: seq<nat>, local: map<nat, nat>, n: nat, m: nat)
    requires Related(near, local) && LandsIn(local, primary) && near(n, m) && m in primary
    ensures Related(near, local[n := m]) && LandsIn(local[n := m], primary)
  {
  }

  lemma SoundStep(near: (nat, nat) -> bool, secondary: seq<nat>, primary: seq<nat>, k: nat, local: map<nat, nat>,
      m: nat)
    requires k < |secondary| && Increasing(secondary) && SoundMatching(near, secondary, primary, k, local)
    requires m !in local.Values && near(secondary[k], m) && m in primary
    ensures SoundMatching(near, secondary, primary, k + 1, local[secondary[k] := m])
  {
    CoversOneMore(secondary, k, local, m);
    RelatedOneMore(near, primary, local, secondary[k], m);
    ExtendMatching(local, secondary[k], m);
    ExtendedSizes(local, secondary[k], m);
  }

  ghost predicate UnusedNear(near: (nat, nat) -> bool, n: nat, primary: seq<nat>, used: set<nat>, p: nat) {
    p in primary && p !in used && near(n, p)
  }

  lemma {:induction false} CandidatesSound(near: (nat, nat) -> bool, n: nat, primary: seq<nat>, used: set<nat>, k: nat,
      i: nat)
    requires k <= |primary| && i < |Candidates(near, n, primary, used, k)|
    ensures UnusedNear(near, n, primary, used, Candidates(near, n, primary, used, k)[i])
  {
    if i < |Candidates(near, n, primary, used, k - 1)| {
      CandidatesSound(near, n, primary, used, k - 1, i);
    } else {
      assert primary[k - 1] in primary;
    }
  }

  /** A partial matching pairs exactly the secondary nodes seen so far, each
      with a different primary node near it. */
  lemma {:induction false} MatchingSound(near: (nat, nat) -> bool, secondary: seq<nat>, primary: seq<nat>, k: nat)
    requires k <= |secondary| && Increasing(secondary)
    requires Matching(near, secondary, primary, k).Some?
    ensures SoundMatching(near, secondary, primary, k, Matching(near, secondary, primary, k).value)
  {
    if k > 0 {
      MatchingSound(near, secondary, primary, k - 1);
      var before := Matching(near, secondary, primary, k - 1).value;
      var candidates := Candidates(near, secondary[k - 1], primary, before.Values, |primary|);
      CandidatesSound(near, secondary[k - 1], primary, before.Values, |primary|, 0);
      SoundStep(near, secondary, primary, k - 1, before, candidates[0]);
    }
  }

  /** A matching that has failed stays failed. */
  lemma {:induction false} MatchingFails(near: (nat, nat) -> bool, secondary: seq<nat>, primary: seq<nat>, k: nat,
      l: nat)
    requires k <= l <= |secondary| && Matching(near, secondary, primary, k).None?
    ensures Matching(near, secondary, primary, l).None?
  {
    if k < l {
      MatchingFails(near, secondary, primary, k, l - 1);
    }
  }

  lemma MatchedKeys(nodes: seq<Vec3>, s: Sides, tolerance: real)
    requires MatchSides(nodes, s, tolerance).Some?
    ensures MatchSides(nodes, s, tolerance).value.Keys == s.secondaryNodes
  {
    var secondary := Sorted(s.secondaryNodes);
    SortedIsSet(s.secondaryNodes);
    MatchingSound(Near(nodes, tolerance), secondary, Sorted(s.primaryNodes), |secondary|);
    assert s.secondaryNodes <= MatchSides(nodes, s, tolerance).value.Keys by {
      assert forall n :: n in s.secondaryNodes ==> n in secondary;
    }
    SameSizeSubset(s.secondaryNodes, MatchSides(nodes, s, tolerance).value.Keys);
  }

  /** The matching of two sides of equal size is a bijection between their
      nodes. That every primary node is hit is never checked: it follows by
      counting. */
  lemma MatchIsBijection(nodes: seq<Vec3>, s: Sides, tolerance: real)
    requires |s.secondaryNodes| == |s.primaryNodes|
    requires MatchSides(nodes, s, tolerance).Some?
    ensures var local := MatchSides(nodes, s, tolerance).value;
      && local.Keys == s.secondaryNodes && local.Values == s.primaryNodes
      && Injective(local) && Related(Near(nodes, tolerance), local)
  {
    var secondary, primary := Sorted(s.secondaryNodes), Sorted(s.primaryNodes);
    var local := MatchSides(nodes, s, tolerance).value;
    SortedIsSet(s.secondaryNodes);
    SortedIsSet(s.primaryNodes);
    MatchingSound(Near(nodes, tolerance), secondary, primary, |secondary|);
    MatchedKeys(nodes, s, tolerance);
    SameSizeSubset(local.Values, s.primaryNodes);
  }

  // ---------------------------------------------------------------- conforming facets

  lemma RewriteAgrees(w1: map<nat, nat>, w2: map<nat, nat>, entries: seq<seq<nat>>)
    requires forall n :: n in NodesOf(entries) ==> Resolve(w1, n) == Resolve(w2, n)
    ensures Rewrite(w1, entries) == Rewrite(w2, entries)
  {
    forall i | 0 <= i < |entries| ensures RewriteEntry(w1, entries[i]) == RewriteEntry(w2, entries[i]) {
      forall j | 0 <= j < |entries[i]| ensures Resolve(w1, entries[i][j]) == Resolve(w2, entries[i][j]) {
        NodeOfEntry(entries, i, j);
      }
    }
  }

  lemma RewriteUntouched(weld: map<nat, nat>, entries: seq<seq<nat>>)
    requires NodesOf(entries) !! weld.Keys
    ensures Rewrite(weld, entries) == entries
  {
    forall i | 0 <= i < |entries| ensures RewriteEntry(weld, entries[i]) == entries[i] {
      forall j | 0 <= j < |entries[i]| ensures Resolve(weld, entries[i][j]) == entries[i][j] {
        NodeOfEntry(entries, i, j);
      }
    }
  }

  function KeySet(facets: seq<Facet>): set<multiset<nat>> {
    set k | k in Keys(facets)
  }

  /** Distinct mapped keys, all of them primary keys, and equally many facets on
      both sides: then the two sides have one and the same set of keys and the
      primary side repeats none either. */
  lemma SameKeys(mapped: seq<Facet>, primaryFacets: seq<Facet>)
    requires SameTopology(mapped, primaryFacets) && |mapped| == |primaryFacets|
    ensures KeySet(mapped) == KeySet(primaryFacets)
    ensures Distinct(Keys(primaryFacets))
  {
    DistinctSize(Keys(mapped));
    DistinctSize(Keys(primaryFacets));
    assert KeySet(mapped) <= KeySet(primaryFacets);
    SubsetSize(KeySet(mapped), KeySet(primaryFacets));
    SameSizeSubset(KeySet(mapped), KeySet(primaryFacets));
  }

  // ---------------------------------------------------------------- one accepted interaction

  /** Every facet a region lists lies in the region's domain. */
  ghost predicate FacetsHomed(c: Interface, home: seq<string>) {
    && |home| == |c.nodes|
    && c.Valid()
    && forall r :: r in c.regionOf ==> RegionHomed(c, home, c.regionOf[r])
  }

  ghost predicate RegionHomed(c: Interface, home: seq<string>, region: BoundaryRegion)
    requires Below(region.facetIndices, |c.facets|)
  {
    forall i :: 0 <= i < |region.facetIndices| ==> Homed(home, c.facets[region.facetIndices[i]], region.domainId)
  }

  /** What request validation demands: no domain is on both sides. */
  ghost predicate SidesApart(c: Interface, i: Interaction)
    requires i.SharedTopology?
  {
    forall s, p :: s in i.secondaryReferenceIds && p in i.primaryReferenceIds && s in c.regionOf && p in c.regionOf
      ==> c.regionOf[s].domainId != c.regionOf[p].domainId
  }

  lemma {:induction false} SideHome(c: Interface, home: seq<string>, refs: seq<string>, n: nat) returns (ref: string)
    requires FacetsHomed(c, home) && SideFacets(c, refs).Success? && n in NodesOf(SideFacets(c, refs).value)
    ensures ref in refs && ref in c.regionOf && n < |home| && home[n] == c.regionOf[ref].domainId
  {
    var facets := SideFacets(c, refs).value;
    var i, j := EntryOfNode(facets, n);
    var init, last := refs[..|refs| - 1], refs[|refs| - 1];
    var before := SideFacets(c, init).value;
    if i < |before| {
      NodeOfEntry(before, i, j);
      ref := SideHome(c, home, init, n);
    } else {
      ref := last;
      var region := c.regionOf[last];
      assert facets[i] == c.facets[region.facetIndices[i - |before|]];
    }
  }

  lemma SidesHaveNoCommonDomain(c: Interface, home: seq<string>, i: Interaction, n: nat, p: nat)
    requires FacetsHomed(c, home) && i.SharedTopology? && SidesApart(c, i)
    requires SideFacets(c, i.secondaryReferenceIds).Success? &&
      n in NodesOf(SideFacets(c, i.secondaryReferenceIds).value)
    requires SideFacets(c, i.primaryReferenceIds).Success? && p in NodesOf(SideFacets(c, i.primaryReferenceIds).value)
    ensures n < |home| && p < |home| && home[n] != home[p]
  {
    var s := SideHome(c, home, i.secondaryReferenceIds, n);
    var r := SideHome(c, home, i.primaryReferenceIds, p);
  }

  /** The state between interactions: one-link replacement chains, no two nodes
      sent to one place, each replacement between two domains, and exactly the
      nodes involved claimed. */
  ghost predicate Sound(home: seq<string>, st: WeldState) {
    && st.weld.Keys !! st.weld.Values
    && st.claimed == st.weld.Keys + st.weld.Values
    && Injective(st.weld)
    && forall n :: n in st.weld ==> n < |home| && st.weld[n] < |home| && home[n] != home[st.weld[n]]
  }

  lemma UnclaimedSideUntouched(weld: map<nat, nat>, claimed: set<nat>, facets: seq<Facet>)
    requires claimed == weld.Keys + weld.Values && ResolvedNodes(weld, facets) !! claimed
    ensures ResolvedNodes(weld, facets) == NodesOf(facets) && NodesOf(facets) !! claimed
  {
    forall n | n in NodesOf(facets) ensures n !in claimed && Resolve(weld, n) == n {
      assert Resolve(weld, n) in ResolvedNodes(weld, facets);
    }
    forall n | n in NodesOf(facets) ensures n in ResolvedNodes(weld, facets) {
      assert Resolve(weld, n) in ResolvedNodes(weld, facets);
    }
  }

  lemma DisjointParts(a: set<nat>, b: set<nat>, claimed: set<nat>)
    requires (a + b) * claimed == {}
    ensures a !! claimed && b !! claimed
  {
    forall n | n in claimed ensures n !in a && n !in b {
      assert n !in (a + b) * claimed;
    }
  }

  /** The facts behind an acceptance, in the order they were checked. */
  lemma AcceptedFacts(c: Interface, i: Interaction, st: WeldState, a: Acceptance) returns (s: Sides)
    requires c.Valid() && i.SharedTopology? && Accept(c, i, st) == Success(a)
    ensures SidesOf(c, i, st.weld) == Success(s)
    ensures 0 < |s.secondaryFacets| == |s.primaryFacets| && |s.secondaryNodes| == |s.primaryNodes|
    ensures s.secondaryNodes !! st.claimed && s.primaryNodes !! st.claimed
    ensures MatchSides(c.nodes, s, i.positionTolerance) == Some(a.local)
    ensures SameTopology(Mapped(s, st.weld, a.local), s.primaryFacets)
    ensures AllOpposed(c.nodes, Mapped(s, st.weld, a.local), s.primaryFacets)
    ensures a.interfaceNodes == s.secondaryNodes + s.primaryNodes
  {
    s := SidesOf(c, i, st.weld).value;
    DisjointParts(s.secondaryNodes, s.primaryNodes, st.claimed);
  }

  /** The two sides of an accepted interaction are untouched by earlier ones,
      and its replacements pair them one to one within tolerance. */
  lemma AcceptedSides(c: Interface, i: Interaction, st: WeldState, a: Acceptance) returns (s: Sides)
    requires c.Valid() && i.SharedTopology? && Accept(c, i, st) == Success(a)
    requires st.claimed == st.weld.Keys + st.weld.Values
    ensures SidesOf(c, i, st.weld) == Success(s)
    ensures s.secondaryNodes == NodesOf(s.secondaryFacets) && s.primaryNodes == NodesOf(s.primaryFacets)
    ensures s.secondaryNodes !! st.claimed && s.primaryNodes !! st.claimed
    ensures a.local.Keys == s.secondaryNodes && a.local.Values == s.primaryNodes
    ensures a.interfaceNodes == s.secondaryNodes + s.primaryNodes
    ensures Injective(a.local) && Related(Near(c.nodes, i.positionTolerance), a.local)
  {
    s := AcceptedFacts(c, i, st, a);
    MatchIsBijection(c.nodes, s, i.positionTolerance);
    UnclaimedSideUntouched(st.weld, st.claimed, s.secondaryFacets);
    UnclaimedSideUntouched(st.weld, st.claimed, s.primaryFacets);
  }

  lemma DisjointUnionValues(m: map<nat, nat>, l: map<nat, nat>)
    requires m.Keys !! l.Keys
    ensures (m + l).Keys == m.Keys + l.Keys && (m + l).Values == m.Values + l.Values
  {
  }

  lemma DisjointUnionInjective(m: map<nat, nat>, l: map<nat, nat>)
    requires m.Keys !! l.Keys && m.Values !! l.Values && Injective(m) && Injective(l)
    ensures Injective(m + l)
  {
    var u := m + l;
    forall x, y | x in u && y in u && u[x] == u[y] ensures x == y {
      assert if x in l then l[x] in l.Values else m[x] in m.Values;
      assert if y in l then l[y] in l.Values else m[y] in m.Values;
    }
  }

  /** A pairing of unclaimed nodes of different domains. */
  ghost predicate NewPairing(home: seq<string>, st: WeldState, a: Acceptance) {
    && a.interfaceNodes == a.local.Keys + a.local.Values
    && a.interfaceNodes !! st.claimed
    && Injective(a.local)
    && forall n, p :: n in a.local.Keys && p in a.local.Values ==> n < |home| && p < |home| && home[n] != home[p]
  }

  /** A new pairing has nothing in common with the one before. */
  lemma NewPairingApart(home: seq<string>, st: WeldState, a: Acceptance)
    requires st.claimed == st.weld.Keys + st.weld.Values && NewPairing(home, st, a)
    ensures a.local.Keys !! a.local.Values
    ensures st.weld.Keys !! a.local.Keys && st.weld.Values !! a.local.Values
    ensures st.weld.Keys !! a.local.Values && a.local.Keys !! st.weld.Values
    ensures forall n :: n in a.local ==> n < |home| && a.local[n] < |home| && home[n] != home[a.local[n]]
  {
    forall n | n in a.local ensures n < |home| && a.local[n] < |home| && home[n] != home[a.local[n]] {
      assert n in a.local.Keys && a.local[n] in a.local.Values;
    }
  }

  lemma PairingKeepsSound(home: seq<string>, st: WeldState, a: Acceptance)
    requires Sound(home, st) && NewPairing(home, st, a)
    ensures Sound(home, Next(st, a))
  {
    NewPairingApart(home, st, a);
    DisjointUnionValues(st.weld, a.local);
    DisjointUnionInjective(st.weld, a.local);
  }

  lemma AcceptKeepsSound(c: Interface, home: seq<string>, i: Interaction, st: WeldState, a: Acceptance)
    requires FacetsHomed(c, home) && i.SharedTopology? && SidesApart(c, i)
    requires Sound(home, st) && Accept(c, i, st) == Success(a)
    ensures Sound(home, Next(st, a))
  {
    AcceptedPairing(c, home, i, st, a);
    PairingKeepsSound(home, st, a);
  }

  lemma AcceptedPairing(c: Interface, home: seq<string>, i: Interaction, st: WeldState, a: Acceptance)
    requires FacetsHomed(c, home) && i.SharedTopology? && SidesApart(c, i)
    requires st.claimed == st.weld.Keys + st.weld.Values && Accept(c, i, st) == Success(a)
    ensures NewPairing(home, st, a)
  {
    var s := AcceptedSides(c, i, st, a);
    forall n, p | n in a.local.Keys && p in a.local.Values
      ensures n < |home| && p < |home| && home[n] != home[p]
    {
      SidesHaveNoCommonDomain(c, home, i, n, p);
    }
  }

  ghost predicate Admitted(c: Interface, home: seq<string>, interactions: seq<Interaction>) {
    && FacetsHomed(c, home)
    && AllShared(interactions)
    && forall j :: 0 <= j < |interactions| ==> SidesApart(c, interactions[j])
  }

  /** The interactions are all accepted and leave the weld in state `st`. */
  ghost predicate Reaches(c: Interface, interactions: seq<Interaction>, st: WeldState)
    requires c.Valid() && AllShared(interactions)
  {
    WeldAll(c, interactions) == Success(st)
  }

  lemma LastAccepted(c: Interface, interactions: seq<Interaction>, st: WeldState)
    returns (before: WeldState, a: Acceptance)
    requires c.Valid() && AllShared(interactions) && Reaches(c, interactions, st) && interactions != []
    ensures Reaches(c, interactions[..|interactions| - 1], before)
    ensures Accept(c, interactions[|interactions| - 1], before) == Success(a)
    ensures st == Next(before, a)
  {
    before := WeldAll(c, interactions[..|interactions| - 1]).value;
    a := Accept(c, interactions[|interactions| - 1], before).value;
  }

  /** Every reachable weld state is sound: so a node that has been moved onto is
      never itself moved, and the replacement chase takes at most one step. */
  lemma {:induction false} WeldSound(c: Interface, home: seq<string>, interactions: seq<Interaction>, st: WeldState)
    requires Admitted(c, home, interactions) && Reaches(c, interactions, st)
    ensures Sound(home, st)
    decreases |interactions|
  {
    if interactions != [] {
      var before, a := LastAccepted(c, interactions, st);
      WeldSound(c, home, interactions[..|interactions| - 1], before);
      AcceptKeepsSound(c, home, interactions[|interactions| - 1], before, a);
    }
  }

  /** Within one domain no two nodes end up as one. */
  lemma ResolveInjectiveOnDomain(home: seq<string>, st: WeldState, a: nat, b: nat)
    requires Sound(home, st) && a < |home| && b < |home| && home[a] == home[b]
    requires Resolve(st.weld, a) == Resolve(st.weld, b)
    ensures a == b
  {
  }
}
