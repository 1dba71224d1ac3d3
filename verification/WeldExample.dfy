/** A smallest weld, worked through: two triangular cells on top of each other,
    facing opposite ways, become one. It shows that what the weld is assumed and
    proved to do is not about nothing. */
module WeldExample {
  import opened Wrappers
  import opened Ascending
  import opened FemModel
  import opened InterfaceWeld
  import opened WeldGeometry
  import opened WeldSoundness
  import opened Compaction
  import opened WeldedModel
  import opened SharedTopology

  const A := Vec3(0.0, 0.0, 0.0)
  const B := Vec3(1.0, 0.0, 0.0)
  const C := Vec3(0.0, 1.0, 0.0)

  const NODES: seq<Vec3> := [A, B, C, A, B, C]
  const LOWER := BoundaryRegion("lower", ["top"], [0])
  const UPPER := BoundaryRegion("upper", ["bottom"], [1])
  const TIE := SharedTopology("tie", ["bottom"], ["top"], 0.5)
  const HOME: seq<string> := ["lower", "lower", "lower", "upper", "upper", "upper"]

  const PAIR := Composed(
    NODES, [[0, 1, 2], [3, 4, 5]], ["lower", "upper"], [[0, 1, 2], [3, 5, 4]], ["lower", "upper"],
    [LOWER, UPPER], [DomainRegion("lower", [0], [0, 1, 2]), DomainRegion("upper", [1], [3, 4, 5])])

  const LOCAL: map<nat, nat> := map[3 := 0, 4 := 1, 5 := 2]

  lemma AllNodesUsed(n: nat)
    requires n < 6
    ensures n in NodesOf(PAIR.elements)
  {
    NodeOfEntry([[0, 1, 2], [3, 4, 5]], n / 3, n % 3);
  }

  lemma FacetsCarried()
    ensures AllIn(PAIR.facets, NodesOf(PAIR.elements))
  {
    forall e, i | 0 <= e < |PAIR.facets| && 0 <= i < |PAIR.facets[e]|
      ensures PAIR.facets[e][i] in NodesOf(PAIR.elements)
    {
      AllNodesUsed(PAIR.facets[e][i]);
    }
  }

  lemma TwoDomains()
    ensures DomainIds(PAIR.domainRegions) == ["lower", "upper"] && Distinct(["lower", "upper"])
    ensures "lower" in DomainIds(PAIR.domainRegions) && "upper" in DomainIds(PAIR.domainRegions)
  {
    assert "lower"[0] != "upper"[0];
    var ids := DomainIds(PAIR.domainRegions);
    assert ids[0] == "lower" && ids[1] == "upper";
  }

  lemma ElementsListed()
    ensures forall d :: 0 <= d < |PAIR.domainRegions| ==> ListsElements(PAIR.domainRegions[d], PAIR.elementDomainIds)
  {
    assert "lower"[0] != "upper"[0];
    assert ListsElements(DomainRegion("lower", [0], [0, 1, 2]), ["lower", "upper"]);
    assert ListsElements(DomainRegion("upper", [1], [3, 4, 5]), ["lower", "upper"]) by {
      assert [1][0] == 1;
    }
  }

  lemma EntriesAtHome()
    ensures EntriesHomed(HOME, [[0, 1, 2], [3, 4, 5]], ["lower", "upper"])
    ensures EntriesHomed(HOME, [[0, 1, 2], [3, 5, 4]], ["lower", "upper"])
  {
    assert Homed(HOME, [0, 1, 2], "lower") && Homed(HOME, [3, 4, 5], "upper") && Homed(HOME, [3, 5, 4], "upper");
  }

  lemma RegionsListed()
    ensures forall r :: 0 <= r < |PAIR.boundaryRegions| ==> ListsFacets(PAIR.boundaryRegions[r], PAIR.facetDomainIds)
  {
    assert ListsFacets(LOWER, ["lower", "upper"]) && ListsFacets(UPPER, ["lower", "upper"]);
  }

  lemma PairIsWellFormed()
    ensures WellFormed(PAIR, HOME)
  {
    EntriesAtHome();
    FacetsCarried();
    RegionsListed();
    TwoDomains();
    ElementsListed();
    var ids := DomainIds(PAIR.domainRegions);
    assert forall n :: 0 <= n < |HOME| ==> HOME[n] in ids;
    assert forall e :: 0 <= e < |PAIR.elementDomainIds| ==> PAIR.elementDomainIds[e] in ids;
  }

  lemma PairRegions()
    ensures RegionsByReference(PAIR.boundaryRegions) == map["top" := LOWER, "bottom" := UPPER]
  {
    var regions := PAIR.boundaryRegions;
    assert regions[..1] == [LOWER] && regions[..1][..0] == [];
    assert RegionsByReference([]) == map[];
    assert RegionsByReference(regions[..1]) == map["top" := LOWER];
  }

  lemma OneReference(c: Interface, ref: string, region: BoundaryRegion, facet: Facet)
    requires c.Valid() && ref in c.regionOf && c.regionOf[ref] == region
    requires |region.facetIndices| == 1 && c.facets[region.facetIndices[0]] == facet
    ensures SideFacets(c, [ref]) == Success([facet])
  {
    assert [ref][..0] == [];
    assert SideFacets(c, []) == Success([]);
    assert RegionFacets(c, region) == [facet];
    assert [] + [facet] == [facet];
  }

  lemma Three(s: set<nat>, n: nat)
    requires s == {n, n + 1, n + 2}
    ensures Sorted(s) == [n, n + 1, n + 2]
  {
    SortedIsSet(s);
    assert |s| == 3;
    assert n in Sorted(s) && n + 1 in Sorted(s) && n + 2 in Sorted(s);
  }

  /** Each upper node lies on the lower node three below and far from the others. */
  ghost predicate Stacked(near: (nat, nat) -> bool) {
    forall n: nat, p: nat :: 3 <= n < 6 && p < 3 ==> (near(n, p) <==> n == p + 3)
  }

  /** Whether two points of the plane are near each other, from their differences. */
  lemma Difference(p: Vec3, q: Vec3, dx: real, dy: real, near: bool)
    requires p.x - q.x == dx && p.y - q.y == dy && p.z == q.z && near == (dx * dx + dy * dy <= 0.25)
    ensures Within(p, q, 0.5) == near
  {
  }

  lemma NearExactly(n: nat, p: nat)
    requires 3 <= n < 6 && p < 3
    ensures Near(NODES, 0.5)(n, p) <==> n == p + 3
  {
    var u, v := NODES[n], NODES[p];
    assert u == if n == 3 then A else if n == 4 then B else C;
    assert v == if p == 0 then A else if p == 1 then B else C;
    var dx := (if n == 4 then 1.0 else 0.0) - (if p == 1 then 1.0 else 0.0);
    var dy := (if n == 5 then 1.0 else 0.0) - (if p == 2 then 1.0 else 0.0);
    var near := n == p + 3;
    assert near == (dx * dx + dy * dy <= 0.25);
    Difference(u, v, dx, dy, near);
  }

  lemma PairIsStacked()
    ensures Stacked(Near(NODES, 0.5))
  {
    forall n: nat, p: nat | 3 <= n < 6 && p < 3 ensures Near(NODES, 0.5)(n, p) <==> n == p + 3 {
      NearExactly(n, p);
    }
  }

  lemma OneCandidate(near: (nat, nat) -> bool, n: nat, used: set<nat>)
    requires Stacked(near) && 3 <= n < 6 && n - 3 !in used
    ensures Candidates(near, n, [0, 1, 2], used, 3) == [n - 3]
  {
    var primary: seq<nat> := [0, 1, 2];
    assert Candidates(near, n, primary, used, 0) == [];
    assert Candidates(near, n, primary, used, 1) == if n == 3 then [0] else [];
    assert Candidates(near, n, primary, used, 2) == if n == 3 then [0] else if n == 4 then [1] else [];
  }

  lemma StackedMatch(near: (nat, nat) -> bool)
    requires Stacked(near)
    ensures Matching(near, [3, 4, 5], [0, 1, 2], 3) == Some(LOCAL)
  {
    var upper: seq<nat>, none: map<nat, nat> := [3, 4, 5], map[];
    var one, two := none[3 := 0], none[3 := 0][4 := 1];
    ExtendedSizes(none, 3, 0);
    ExtendedSizes(one, 4, 1);
    assert none.Values == {} && one.Values == {0} && two.Values == {0, 1};
    OneCandidate(near, 3, none.Values);
    OneCandidate(near, 4, one.Values);
    OneCandidate(near, 5, two.Values);
    assert Matching(near, upper, [0, 1, 2], 0) == Some(none);
    assert Matching(near, upper, [0, 1, 2], 1) == Some(one);
    assert Matching(near, upper, [0, 1, 2], 2) == Some(two);
  }

  // ---------------------------------------------------------------- the two facets

  /** The facet lies flat and its normal points up or down. */
  ghost predicate Heads(nodes: seq<Vec3>, f: Facet, up: real) {
    ValidFacet(nodes, f) && Normal(nodes, f) == Vec3(0.0, 0.0, up)
  }

  lemma UpperNormal()
    ensures Heads(NODES, [0, 2, 1], -1.0)
  {
  }

  lemma LowerNormal()
    ensures Heads(NODES, [0, 1, 2], 1.0)
  {
  }

  lemma FacingNormals(nodes: seq<Vec3>, f: Facet, g: Facet)
    requires Heads(nodes, f, -1.0) && Heads(nodes, g, 1.0)
    ensures Opposed(nodes, f, g)
  {
  }

  lemma OneFacetEach(nodes: seq<Vec3>, f: Facet, g: Facet)
    requires FacetKey(f) == FacetKey(g) && Opposed(nodes, f, g)
    ensures SameTopology([f], [g]) && AllOpposed(nodes, [f], [g])
  {
    assert Keys([f])[0] == FacetKey(f) && Keys([g])[0] == FacetKey(g);
    assert LastWithKey([g], FacetKey(f), 1) == Some(g);
  }

  lemma MappedFacet()
    ensures Rewrite(LOCAL, Rewrite(map[], [[3, 5, 4]])) == [[0, 2, 1]]
    ensures ResolvedNodes(map[], [[3, 5, 4]]) == {3, 4, 5} && ResolvedNodes(map[], [[0, 1, 2]]) == {0, 1, 2}
  {
    RewriteUntouched(map[], [[3, 5, 4]]);
    assert RewriteEntry(LOCAL, [3, 5, 4]) == [0, 2, 1];
    NodesOfOne([3, 5, 4]);
    NodesOfOne([0, 1, 2]);
  }

  lemma NodesOfOne(f: Facet)
    ensures NodesOf([f]) == set n | n in f
    ensures ResolvedNodes(map[], [f]) == NodesOf([f])
  {
    forall n | n in f ensures n in NodesOf([f]) {
      assert [f][0] == f;
    }
    forall n | n in NodesOf([f]) ensures n in ResolvedNodes(map[], [f]) {
      assert Resolve(map[], n) == n;
    }
  }

  const SIDES := Sides([[3, 5, 4]], [[0, 1, 2]], {3, 4, 5}, {0, 1, 2})

  lemma PairSides(c: Interface)
    requires c.Valid() && SideFacets(c, ["bottom"]) == Success([[3, 5, 4]]) &&
      SideFacets(c, ["top"]) == Success([[0, 1, 2]])
    ensures SidesOf(c, TIE, map[]) == Success(SIDES)
  {
    MappedFacet();
  }

  lemma PairMatch(nodes: seq<Vec3>)
    requires Stacked(Near(nodes, 0.5))
    ensures MatchSides(nodes, SIDES, 0.5) == Some(LOCAL)
  {
    Three({3, 4, 5}, 3);
    Three({0, 1, 2}, 0);
    StackedMatch(Near(nodes, 0.5));
  }

  lemma SameKey(f: Facet, g: Facet)
    requires f == [0, 2, 1] && g == [0, 1, 2]
    ensures FacetKey(f) == FacetKey(g)
  {
    assert multiset([0, 2, 1]) == multiset([0, 1, 2]);
  }

  lemma FacesAgree(nodes: seq<Vec3>, f: Facet, g: Facet)
    requires f == [0, 2, 1] && g == [0, 1, 2] && Heads(nodes, f, -1.0) && Heads(nodes, g, 1.0)
    ensures SameTopology([f], [g]) && AllOpposed(nodes, [f], [g])
  {
    FacingNormals(nodes, f, g);
    SameKey(f, g);
    OneFacetEach(nodes, f, g);
  }

  /** The checks of an interaction, passed one by one. */
  lemma AcceptedFrom(c: Interface, i: Interaction, st: WeldState, s: Sides, local: map<nat, nat>)
    requires c.Valid() && i.SharedTopology? && SidesOf(c, i, st.weld) == Success(s)
    requires 0 < |s.secondaryFacets| == |s.primaryFacets| && |s.secondaryNodes| == |s.primaryNodes|
    requires (s.secondaryNodes + s.primaryNodes) * st.claimed == {}
    requires MatchSides(c.nodes, s, i.positionTolerance) == Some(local)
    requires SameTopology(Mapped(s, st.weld, local), s.primaryFacets)
    requires AllOpposed(c.nodes, Mapped(s, st.weld, local), s.primaryFacets)
    ensures Accept(c, i, st) == Success(Acceptance(local, s.secondaryNodes + s.primaryNodes))
  {
  }

  lemma SideSizes()
    ensures |SIDES.secondaryFacets| == |SIDES.primaryFacets| == 1
    ensures |SIDES.secondaryNodes| == |SIDES.primaryNodes| == 3
  {
  }

  lemma SidesAccepted(c: Interface, mapped: Facet, primary: Facet)
    requires c.Valid() && SidesOf(c, TIE, map[]) == Success(SIDES)
    requires MatchSides(c.nodes, SIDES, 0.5) == Some(LOCAL)
    requires Mapped(SIDES, map[], LOCAL) == [mapped] && SIDES.primaryFacets == [primary]
    requires SameTopology([mapped], [primary]) && AllOpposed(c.nodes, [mapped], [primary])
    ensures Accept(c, TIE, WeldState(map[], {})) == Success(Acceptance(LOCAL, {0, 1, 2, 3, 4, 5}))
  {
    SideSizes();
    AcceptedFrom(c, TIE, WeldState(map[], {}), SIDES, LOCAL);
    assert SIDES.secondaryNodes + SIDES.primaryNodes == {0, 1, 2, 3, 4, 5};
  }

  lemma PairSideFacets(c: Interface)
    requires c == InterfaceOf(PAIR) && c.Valid()
    ensures SideFacets(c, ["bottom"]) == Success([[3, 5, 4]]) && SideFacets(c, ["top"]) == Success([[0, 1, 2]])
  {
    PairRegions();
    OneReference(c, "bottom", UPPER, [3, 5, 4]);
    OneReference(c, "top", LOWER, [0, 1, 2]);
  }

  lemma AcceptedWhenFacing(c: Interface, f: Facet, g: Facet)
    requires c.Valid() && f == [0, 2, 1] && g == [0, 1, 2] && Heads(c.nodes, f, -1.0) && Heads(c.nodes, g, 1.0) &&
      Stacked(Near(c.nodes, 0.5))
    requires SideFacets(c, ["bottom"]) == Success([[3, 5, 4]]) && SideFacets(c, ["top"]) == Success([g])
    ensures Accept(c, TIE, WeldState(map[], {})) == Success(Acceptance(LOCAL, {0, 1, 2, 3, 4, 5}))
  {
    PairSides(c);
    PairMatch(c.nodes);
    MappedFacet();
    FacesAgree(c.nodes, f, g);
    SidesAccepted(c, f, g);
  }

  lemma PairIsAccepted(c: Interface)
    requires c == InterfaceOf(PAIR) && c.Valid()
    ensures Accept(c, TIE, WeldState(map[], {})) == Success(Acceptance(LOCAL, {0, 1, 2, 3, 4, 5}))
  {
    PairSideFacets(c);
    PairIsStacked();
    UpperNormal();
    LowerNormal();
    AcceptedWhenFacing(c, [0, 2, 1], [0, 1, 2]);
  }

  lemma PairSidesApart(c: Interface)
    requires c.regionOf == map["top" := LOWER, "bottom" := UPPER]
    ensures SidesApart(c, TIE)
  {
    assert "lower"[0] != "upper"[0];
  }

  lemma FirstStep(c: Interface, i: Interaction, a: Acceptance)
    requires c.Valid() && i.SharedTopology? && Accept(c, i, WeldState(map[], {})) == Success(a)
    ensures AllShared([i]) && Reaches(c, [i], WeldState(a.local, a.interfaceNodes))
  {
    assert [i][..0] == [];
    assert map[] + a.local == a.local && {} + a.interfaceNodes == a.interfaceNodes;
  }

  lemma SharedAlone(i: Interaction)
    requires i.SharedTopology?
    ensures SharedInOrder([i]) == [i]
  {
    assert [i][..0] == [];
    assert SharedOnly([i]) == [i];
  }

  lemma WeldedAlone(m: Composed, home: seq<string>, i: Interaction, st: WeldState)
    requires i.SharedTopology? && Weldable(m, home, [i]) && InterfaceOf(m).Valid() && AllShared([i]) &&
      Reaches(InterfaceOf(m), [i], st)
    ensures ApplyWeld(m, home, [i]).Success?
  {
    SharedAlone(i);
  }

  lemma PairIsWeldable()
    ensures Weldable(PAIR, HOME, [TIE])
  {
    PairIsWellFormed();
    PairRegions();
    PairSidesApart(InterfaceOf(PAIR));
  }

  /** The hypotheses of the weld can be met, and the weld can end well. */
  lemma PairIsWelded()
    ensures Weldable(PAIR, HOME, [TIE]) && InterfaceOf(PAIR).Valid()
    ensures Reaches(InterfaceOf(PAIR), [TIE], WeldState(LOCAL, {0, 1, 2, 3, 4, 5}))
    ensures ApplyWeld(PAIR, HOME, [TIE]).Success?
  {
    PairIsWeldable();
    WeldableApplicable(PAIR, HOME, [TIE]);
    PairIsAccepted(InterfaceOf(PAIR));
    var a := Acceptance(LOCAL, {0, 1, 2, 3, 4, 5});
    FirstStep(InterfaceOf(PAIR), TIE, a);
    WeldedAlone(PAIR, HOME, TIE, WeldState(a.local, a.interfaceNodes));
  }

  // ---------------------------------------------------------------- the same facet turned round

  /** The model with the upper facet listed the other way round. */
  const TURNED := PAIR.(facets := [[0, 1, 2], [3, 4, 5]])

  const TURNED_SIDES := Sides([[3, 4, 5]], [[0, 1, 2]], {3, 4, 5}, {0, 1, 2})

  lemma TurnedSideFacets(c: Interface)
    requires c == InterfaceOf(TURNED) && c.Valid()
    ensures SideFacets(c, ["bottom"]) == Success([[3, 4, 5]]) && SideFacets(c, ["top"]) == Success([[0, 1, 2]])
  {
    PairRegions();
    OneReference(c, "bottom", UPPER, [3, 4, 5]);
    OneReference(c, "top", LOWER, [0, 1, 2]);
  }

  lemma TurnedFacet()
    ensures Rewrite(LOCAL, Rewrite(map[], [[3, 4, 5]])) == [[0, 1, 2]]
    ensures ResolvedNodes(map[], [[3, 4, 5]]) == {3, 4, 5} && ResolvedNodes(map[], [[0, 1, 2]]) == {0, 1, 2}
  {
    RewriteUntouched(map[], [[3, 4, 5]]);
    assert RewriteEntry(LOCAL, [3, 4, 5]) == [0, 1, 2];
    NodesOfOne([3, 4, 5]);
    NodesOfOne([0, 1, 2]);
  }

  lemma TurnedMatch(nodes: seq<Vec3>)
    requires Stacked(Near(nodes, 0.5))
    ensures MatchSides(nodes, TURNED_SIDES, 0.5) == Some(LOCAL)
  {
    Three({3, 4, 5}, 3);
    Three({0, 1, 2}, 0);
    StackedMatch(Near(nodes, 0.5));
  }

  lemma FacetToItself(nodes: seq<Vec3>, f: Facet)
    ensures SameTopology([f], [f]) && !AllOpposed(nodes, [f], [f])
  {
    assert Keys([f])[0] == FacetKey(f);
    assert LastWithKey([f], FacetKey(f), 1) == Some(f);
    NeverOpposedToItself(nodes, f);
    assert [f][0] == f;
  }

  /** The checks of an interaction, passed one by one up to the last. */
  lemma RefusedFrom(c: Interface, i: Interaction, st: WeldState, s: Sides, local: map<nat, nat>)
    requires c.Valid() && i.SharedTopology? && SidesOf(c, i, st.weld) == Success(s)
    requires 0 < |s.secondaryFacets| == |s.primaryFacets| && |s.secondaryNodes| == |s.primaryNodes|
    requires (s.secondaryNodes + s.primaryNodes) * st.claimed == {}
    requires MatchSides(c.nodes, s, i.positionTolerance) == Some(local)
    requires SameTopology(Mapped(s, st.weld, local), s.primaryFacets)
    requires !AllOpposed(c.nodes, Mapped(s, st.weld, local), s.primaryFacets)
    ensures Accept(c, i, st) == Failure(OrientationInvalid)
  {
  }

  lemma TurnedSizes()
    ensures |TURNED_SIDES.secondaryFacets| == |TURNED_SIDES.primaryFacets| == 1
    ensures |TURNED_SIDES.secondaryNodes| == |TURNED_SIDES.primaryNodes| == 3
  {
  }

  lemma TurnedRefused(c: Interface, mapped: Facet)
    requires c.Valid() && SidesOf(c, TIE, map[]) == Success(TURNED_SIDES)
    requires MatchSides(c.nodes, TURNED_SIDES, 0.5) == Some(LOCAL)
    requires Mapped(TURNED_SIDES, map[], LOCAL) == [mapped] && TURNED_SIDES.primaryFacets == [mapped]
    ensures Accept(c, TIE, WeldState(map[], {})) == Failure(OrientationInvalid)
  {
    TurnedSizes();
    FacetToItself(c.nodes, mapped);
    RefusedFrom(c, TIE, WeldState(map[], {}), TURNED_SIDES, LOCAL);
  }

  /** Only the order of two nodes of one facet is different, and the interface is
      refused for its orientation. */
  lemma TurnedIsRefused(c: Interface)
    requires c == InterfaceOf(TURNED) && c.Valid()
    ensures Accept(c, TIE, WeldState(map[], {})) == Failure(OrientationInvalid)
  {
    TurnedSideFacets(c);
    PairIsStacked();
    TurnedFacet();
    TurnedMatch(c.nodes);
    TurnedRefused(c, [0, 1, 2]);
  }
}
