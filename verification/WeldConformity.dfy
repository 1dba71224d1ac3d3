/** What the weld makes of every accepted interface, and that later interactions
    leave it so. */
module WeldConformity {
  import opened Wrappers
  import opened Ascending
  import opened FemModel
  import opened InterfaceWeld
  import opened WeldSoundness
  import opened WeldGeometry

  /** Every secondary node is moved onto a primary node within tolerance; every
      primary node stays and receives exactly one secondary node of this side. */
  ghost predicate MatchedOneToOne(near: (nat, nat) -> bool, weld: map<nat, nat>, secondary: set<nat>,
      primary: set<nat>) {
    && (forall n :: n in secondary ==> n in weld && weld[n] in primary && near(n, weld[n]))
    && (forall p :: p in primary ==> p !in weld && exists n :: n in secondary && Resolve(weld, n) == p)
    && (forall n, m :: n in secondary && m in secondary && Resolve(weld, n) == Resolve(weld, m) ==> n == m)
  }

  /** Facets welded together face opposite ways. */
  ghost predicate FacingPairs(nodes: seq<Vec3>, secondary: seq<Facet>, primary: seq<Facet>) {
    forall j :: 0 <= j < |secondary| ==> HasOpposite(nodes, secondary[j], primary)
  }

  ghost predicate HasOpposite(nodes: seq<Vec3>, f: Facet, primary: seq<Facet>) {
    exists k :: 0 <= k < |primary| && FacetKey(primary[k]) == FacetKey(f) && FacesAway(nodes, f, primary[k])
  }

  /** Two lists of facets with the same facets in them, none repeated, each
      welded to one that faces the other way. */
  ghost predicate SameFacets(nodes: seq<Vec3>, secondary: seq<Facet>, primary: seq<Facet>) {
    && |secondary| == |primary| > 0
    && Distinct(Keys(secondary)) && Distinct(Keys(primary))
    && KeySet(secondary) == KeySet(primary)
    && FacingPairs(nodes, secondary, primary)
  }

  /** What the weld makes of one interface: its two sides, disjoint before, are
      matched one to one within tolerance and carry the same facets after. */
  ghost predicate Welded(nodes: seq<Vec3>, tolerance: real, weld: map<nat, nat>, secondaryFacets: seq<Facet>,
      primaryFacets: seq<Facet>) {
    && MatchedOneToOne(Near(nodes, tolerance), weld, NodesOf(secondaryFacets), NodesOf(primaryFacets))
    && SameFacets(nodes, Rewrite(weld, secondaryFacets), Rewrite(weld, primaryFacets))
  }

  /** The interface of an interaction conforms and all its nodes are claimed. */
  ghost predicate Conforms(c: Interface, i: Interaction, st: WeldState)
    requires c.Valid() && i.SharedTopology?
  {
    && SideFacets(c, i.secondaryReferenceIds).Success?
    && SideFacets(c, i.primaryReferenceIds).Success?
    && var secondaryFacets := SideFacets(c, i.secondaryReferenceIds).value;
       var primaryFacets := SideFacets(c, i.primaryReferenceIds).value;
       && Welded(c.nodes, i.positionTolerance, st.weld, secondaryFacets, primaryFacets)
       && NodesOf(secondaryFacets) + NodesOf(primaryFacets) <= st.claimed
  }

  // ---------------------------------------------------------------- the interaction just accepted

  lemma {:induction false} LastWithKeyFound(facets: seq<Facet>, key: multiset<nat>, k: nat) returns (j: nat)
    requires k <= |facets| && LastWithKey(facets, key, k).Some?
    ensures j < k && facets[j] == LastWithKey(facets, key, k).value && FacetKey(facets[j]) == key
  {
    if FacetKey(facets[k - 1]) == key {
      j := k - 1;
    } else {
      j := LastWithKeyFound(facets, key, k - 1);
    }
  }

  lemma AllFacingPairs(nodes: seq<Vec3>, mapped: seq<Facet>, primaryFacets: seq<Facet>)
    requires AllOpposed(nodes, mapped, primaryFacets)
    ensures FacingPairs(nodes, mapped, primaryFacets)
  {
    forall j | 0 <= j < |mapped| ensures HasOpposite(nodes, mapped[j], primaryFacets) {
      var k := LastWithKeyFound(primaryFacets, FacetKey(mapped[j]), |primaryFacets|);
      OpposedFacesAway(nodes, mapped[j], primaryFacets[k]);
    }
  }

  /** After an accepted interaction the two sides read the same facets. */
  lemma WeldedFacets(c: Interface, i: Interaction, st: WeldState, a: Acceptance, s: Sides)
    requires 0 < |s.secondaryFacets| == |s.primaryFacets|
    requires SameTopology(Mapped(s, st.weld, a.local), s.primaryFacets)
    requires AllOpposed(c.nodes, Mapped(s, st.weld, a.local), s.primaryFacets)
    requires NodesOf(s.secondaryFacets) == a.local.Keys && NodesOf(s.primaryFacets) == a.local.Values
    requires a.local.Keys !! st.weld.Keys && a.local.Values !! st.weld.Keys && a.local.Keys !! a.local.Values
    ensures var weld := Next(st, a).weld;
      SameFacets(c.nodes, Rewrite(weld, s.secondaryFacets), Rewrite(weld, s.primaryFacets))
  {
    var weld := Next(st, a).weld;
    RewriteUntouched(st.weld, s.secondaryFacets);
    RewriteAgrees(weld, a.local, s.secondaryFacets);
    RewriteUntouched(weld, s.primaryFacets);
    SameKeys(Mapped(s, st.weld, a.local), s.primaryFacets);
    AllFacingPairs(c.nodes, Mapped(s, st.weld, a.local), s.primaryFacets);
  }

  lemma WeldedNodes(near: (nat, nat) -> bool, st: WeldState, a: Acceptance)
    requires Injective(a.local) && Related(near, a.local)
    requires a.local.Values !! st.weld.Keys && a.local.Keys !! a.local.Values
    ensures MatchedOneToOne(near, Next(st, a).weld, a.local.Keys, a.local.Values)
  {
    var weld := Next(st, a).weld;
    forall n | n in a.local.Keys ensures n in weld && weld[n] == a.local[n] && a.local[n] in a.local.Values {
    }
    forall p | p in a.local.Values ensures p !in weld && exists n :: n in a.local.Keys && Resolve(weld, n) == p {
      var n :| n in a.local.Keys && a.local[n] == p;
      assert Resolve(weld, n) == p;
    }
  }

  lemma AcceptedWelded(c: Interface, home: seq<string>, i: Interaction, st: WeldState, a: Acceptance, s: Sides)
    requires FacetsHomed(c, home) && i.SharedTopology? && SidesApart(c, i)
    requires Sound(home, st) && Accept(c, i, st) == Success(a) && SidesOf(c, i, st.weld) == Success(s)
    ensures Welded(c.nodes, i.positionTolerance, Next(st, a).weld, s.secondaryFacets, s.primaryFacets)
    ensures NodesOf(s.secondaryFacets) + NodesOf(s.primaryFacets) == a.interfaceNodes
  {
    AcceptedPairing(c, home, i, st, a);
    SidesApartSets(home, st, a);
    var facts := AcceptedFacts(c, i, st, a);
    var sides := AcceptedSides(c, i, st, a);
    WeldedNodes(Near(c.nodes, i.positionTolerance), st, a);
    WeldedFacets(c, i, st, a, s);
  }

  lemma AcceptedConforms(c: Interface, home: seq<string>, i: Interaction, st: WeldState, a: Acceptance)
    requires FacetsHomed(c, home) && i.SharedTopology? && SidesApart(c, i)
    requires Sound(home, st) && Accept(c, i, st) == Success(a)
    ensures Conforms(c, i, Next(st, a))
  {
    AcceptedWelded(c, home, i, st, a, SidesOf(c, i, st.weld).value);
  }

  lemma SidesApartSets(home: seq<string>, st: WeldState, a: Acceptance)
    requires Sound(home, st) && NewPairing(home, st, a)
    ensures a.local.Keys !! st.weld.Keys && a.local.Values !! st.weld.Keys && a.local.Keys !! a.local.Values
  {
  }

  // ---------------------------------------------------------------- the interactions accepted before

  lemma MatchKept(near: (nat, nat) -> bool, w1: map<nat, nat>, w2: map<nat, nat>, secondary: set<nat>,
      primary: set<nat>)
    requires MatchedOneToOne(near, w1, secondary, primary)
    requires forall n :: n in secondary || n in primary ==> (n in w1 <==> n in w2) && Resolve(w1, n) == Resolve(w2, n)
    ensures MatchedOneToOne(near, w2, secondary, primary)
  {
  }

  /** An interaction whose nodes are all claimed is not affected by a later one. */
  lemma ConformsKept(c: Interface, i: Interaction, st: WeldState, a: Acceptance)
    requires c.Valid() && i.SharedTopology?
    requires Conforms(c, i, st) && a.local.Keys !! st.claimed
    ensures Conforms(c, i, Next(st, a))
  {
    var secondaryFacets := SideFacets(c, i.secondaryReferenceIds).value;
    var primaryFacets := SideFacets(c, i.primaryReferenceIds).value;
    var w1, w2 := st.weld, Next(st, a).weld;
    forall n | n in st.claimed ensures (n in w1 <==> n in w2) && Resolve(w1, n) == Resolve(w2, n) {
      assert n !in a.local.Keys;
    }
    MatchKept(Near(c.nodes, i.positionTolerance), w1, w2, NodesOf(secondaryFacets), NodesOf(primaryFacets));
    RewriteAgrees(w1, w2, secondaryFacets);
    RewriteAgrees(w1, w2, primaryFacets);
  }

  /** When every interaction has been accepted, every interface conforms. */
  lemma {:induction false} AllConform(c: Interface, home: seq<string>, interactions: seq<Interaction>, st: WeldState,
      j: nat)
    requires Admitted(c, home, interactions) && Reaches(c, interactions, st) && j < |interactions|
    ensures Conforms(c, interactions[j], st)
    decreases |interactions|
  {
    var last := |interactions| - 1;
    var before, a := LastAccepted(c, interactions, st);
    WeldSound(c, home, interactions[..last], before);
    if j == last {
      AcceptedConforms(c, home, interactions[last], before, a);
    } else {
      AllConform(c, home, interactions[..last], before, j);
      AcceptedPairing(c, home, interactions[last], before, a);
      ConformsKept(c, interactions[j], before, a);
    }
  }

  lemma AcceptedMove(c: Interface, i: Interaction, st: WeldState, a: Acceptance, n: nat)
    requires c.Valid() && i.SharedTopology? && Accept(c, i, st) == Success(a)
    requires st.claimed == st.weld.Keys + st.weld.Values && n in a.local
    ensures SideFacets(c, i.secondaryReferenceIds).Success?
    ensures n in NodesOf(SideFacets(c, i.secondaryReferenceIds).value)
    ensures Near(c.nodes, i.positionTolerance)(n, Next(st, a).weld[n])
  {
    var s := AcceptedSides(c, i, st, a);
    assert n in a.local.Keys;
  }

  /** Every moved node lies on the secondary side of one of the interactions and
      is moved no further than that interaction's tolerance. */
  lemma {:induction false} MoveWithinTolerance(c: Interface, home: seq<string>, interactions: seq<Interaction>,
      st: WeldState, n: nat)
    returns (j: nat)
    requires Admitted(c, home, interactions) && Reaches(c, interactions, st) && n in st.weld
    ensures j < |interactions| && Near(c.nodes, interactions[j].positionTolerance)(n, st.weld[n])
    ensures SideFacets(c, interactions[j].secondaryReferenceIds).Success?
    ensures n in NodesOf(SideFacets(c, interactions[j].secondaryReferenceIds).value)
    decreases |interactions|
  {
    var last := |interactions| - 1;
    var before, a := LastAccepted(c, interactions, st);
    WeldSound(c, home, interactions[..last], before);
    if n in a.local {
      j := last;
      AcceptedMove(c, interactions[last], before, a, n);
    } else {
      j := MoveWithinTolerance(c, home, interactions[..last], before, n);
    }
  }
}
