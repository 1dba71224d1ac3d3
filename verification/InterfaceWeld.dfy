/** The acceptance of shared-topology interactions: what one interaction must
    satisfy, which node replacements it contributes, and how the interactions
    follow one another. */
module InterfaceWeld {
  import opened Wrappers
  import opened Ascending
  import opened FemModel

  datatype WeldError = RegionInvalid | Nonconformal | Overlap | OrientationInvalid

  /** What the matching of an interface reads: coordinates, facets as first
      composed, and the region that carries each semantic reference. */
  datatype Interface = Interface(nodes: seq<Vec3>, facets: seq<Facet>, regionOf: map<string, BoundaryRegion>) {
    ghost predicate Valid() {
      forall r :: r in regionOf ==> Below(regionOf[r].facetIndices, |facets|)
    }
  }

  /** A semantic reference leads to the last region that lists it. */
  function RegionsByReference(regions: seq<BoundaryRegion>): map<string, BoundaryRegion> {
    if regions == [] then map[]
    else
      var last := regions[|regions| - 1];
      RegionsByReference(regions[..|regions| - 1]) + map ref | ref in last.semanticReferenceIds :: last
  }

  function InterfaceOf(m: Composed): Interface {
    Interface(m.nodes, m.facets, RegionsByReference(m.boundaryRegions))
  }

  /** Replacements made so far and interface nodes already spoken for. */
  datatype WeldState = WeldState(weld: map<nat, nat>, claimed: set<nat>)

  /** What an accepted interaction adds to that state. */
  datatype Acceptance = Acceptance(local: map<nat, nat>, interfaceNodes: set<nat>)

  /** Replacement chains never get longer than one link (see `Sound`), so the
      chase ends after at most one step. */
  function Resolve(weld: map<nat, nat>, n: nat): nat {
    if n in weld then weld[n] else n
  }

  function RewriteEntry(weld: map<nat, nat>, entry: seq<nat>): (r: seq<nat>)
    ensures |r| == |entry|
  {
    seq(|entry|, i requires 0 <= i < |entry| => Resolve(weld, entry[i]))
  }

  function Rewrite(weld: map<nat, nat>, entries: seq<seq<nat>>): (r: seq<seq<nat>>)
    ensures |r| == |entries|
  {
    seq(|entries|, i requires 0 <= i < |entries| => RewriteEntry(weld, entries[i]))
  }

  function ResolvedNodes(weld: map<nat, nat>, facets: seq<Facet>): set<nat> {
    set n | n in NodesOf(facets) :: Resolve(weld, n)
  }

  /** Sorting the nodes and joining them with commas identifies a facet up to
      the order of its nodes: two facets have one key exactly when they are
      the same multiset of nodes. */
  function FacetKey(f: Facet): multiset<nat> {
    multiset(f)
  }

  function Keys(facets: seq<Facet>): (r: seq<multiset<nat>>)
    ensures |r| == |facets|
  {
    seq(|facets|, i requires 0 <= i < |facets| => FacetKey(facets[i]))
  }

  function RegionFacets(c: Interface, region: BoundaryRegion): (r: seq<Facet>)
    requires Below(region.facetIndices, |c.facets|)
  {
    seq(|region.facetIndices|, i requires 0 <= i < |region.facetIndices| => c.facets[region.facetIndices[i]])
  }

  /** One side of an interaction: the facets of its references, in order. */
  function SideFacets(c: Interface, refs: seq<string>): Result<seq<Facet>, WeldError>
    requires c.Valid()
  {
    if refs == [] then Success([])
    else
      var init :- SideFacets(c, refs[..|refs| - 1]);
      var last := refs[|refs| - 1];
      if last !in c.regionOf then Failure(RegionInvalid)
      else Success(init + RegionFacets(c, c.regionOf[last]))
  }

  /** The still unused primary nodes near `n`, among the first `k`. */
  function Candidates(near: (nat, nat) -> bool, n: nat, primary: seq<nat>, used: set<nat>, k: nat): seq<nat>
    requires k <= |primary|
  {
    if k == 0 then []
    else
      var init := Candidates(near, n, primary, used, k - 1);
      var p := primary[k - 1];
      if p !in used && near(n, p) then init + [p] else init
  }

  /** Greedy one-to-one matching of the first `k` secondary nodes: each takes
      the single unused primary node near it, or the match fails. */
  function Matching(near: (nat, nat) -> bool, secondary: seq<nat>, primary: seq<nat>, k: nat): Option<map<nat, nat>>
    requires k <= |secondary|
  {
    if k == 0 then Some(map[])
    else
      match Matching(near, secondary, primary, k - 1)
      case None => None
      case Some(local) =>
        var candidates := Candidates(near, secondary[k - 1], primary, local.Values, |primary|);
        if |candidates| != 1 then None else Some(local[secondary[k - 1] := candidates[0]])
  }

  /** Node numbers are always in range in a composed model (`WellFormed`). */
  function Near(nodes: seq<Vec3>, tolerance: real): (nat, nat) -> bool {
    (n: nat, p: nat) => n < |nodes| && p < |nodes| && Within(nodes[n], nodes[p], tolerance)
  }

  /** What a key-to-facet map built from the first `k` facets holds for `key`:
      the last of them that has it. */
  function LastWithKey(facets: seq<Facet>, key: multiset<nat>, k: nat): Option<Facet>
    requires k <= |facets|
  {
    if k == 0 then None
    else if FacetKey(facets[k - 1]) == key then Some(facets[k - 1])
    else LastWithKey(facets, key, k - 1)
  }

  predicate ValidFacet(nodes: seq<Vec3>, f: Facet) {
    |f| >= 3 && Below(f, |nodes|)
  }

  function Normal(nodes: seq<Vec3>, f: Facet): Vec3
    requires ValidFacet(nodes, f)
  {
    nodes[f[1]].Minus(nodes[f[0]]).Cross(nodes[f[2]].Minus(nodes[f[0]]))
  }

  /** Neither facet is degenerate and the cosine between their normals is at
      most -0.9, compared through squares. Facets are always valid in a
      composed model. */
  predicate Opposed(nodes: seq<Vec3>, f: Facet, g: Facet) {
    && ValidFacet(nodes, f) && ValidFacet(nodes, g)
    && var a, b := Normal(nodes, f), Normal(nodes, g);
       && a.Dot(a) > 0.0 && b.Dot(b) > 0.0
       && a.Dot(b) < 0.0
       && a.Dot(b) * a.Dot(b) >= 0.81 * a.Dot(a) * b.Dot(b)
  }

  /** The mapped secondary facets have distinct keys, each of them a key of the primary side. */
  predicate SameTopology(mapped: seq<Facet>, primaryFacets: seq<Facet>) {
    && Distinct(Keys(mapped))
    && forall k | k in Keys(mapped) :: k in Keys(primaryFacets)
  }

  predicate AllOpposed(nodes: seq<Vec3>, mapped: seq<Facet>, primaryFacets: seq<Facet>) {
    forall j | 0 <= j < |mapped| ::
      match LastWithKey(primaryFacets, FacetKey(mapped[j]), |primaryFacets|)
      case None => false
      case Some(facet) => Opposed(nodes, mapped[j], facet)
  }

  /** The two sides of an interaction: their facets as composed, and the nodes
      of those facets after the replacements so far. */
  datatype Sides = Sides(secondaryFacets: seq<Facet>, primaryFacets: seq<Facet>, secondaryNodes: set<nat>,
    primaryNodes: set<nat>)

  function SidesOf(c: Interface, i: Interaction, weld: map<nat, nat>): Result<Sides, WeldError>
    requires c.Valid() && i.SharedTopology?
  {
    var secondaryFacets :- SideFacets(c, i.secondaryReferenceIds);
    var primaryFacets :- SideFacets(c, i.primaryReferenceIds);
    Success(Sides(secondaryFacets, primaryFacets,
                  ResolvedNodes(weld, secondaryFacets), ResolvedNodes(weld, primaryFacets)))
  }

  function MatchSides(nodes: seq<Vec3>, s: Sides, tolerance: real): Option<map<nat, nat>> {
    var secondary := Sorted(s.secondaryNodes);
    Matching(Near(nodes, tolerance), secondary, Sorted(s.primaryNodes), |secondary|)
  }

  /** The secondary facets as the primary side would write them. */
  function Mapped(s: Sides, weld: map<nat, nat>, local: map<nat, nat>): seq<Facet> {
    Rewrite(local, Rewrite(weld, s.secondaryFacets))
  }

  /** The checks of one interaction, in order, against the replacements and the
      claimed nodes so far. */
  function Accept(c: Interface, i: Interaction, st: WeldState): Result<Acceptance, WeldError>
    requires c.Valid() && i.SharedTopology?
  {
    var s :- SidesOf(c, i, st.weld);
    if |s.secondaryFacets| == 0 || |s.secondaryFacets| != |s.primaryFacets|
       || |s.secondaryNodes| != |s.primaryNodes| then
      Failure(Nonconformal)
    else if (s.secondaryNodes + s.primaryNodes) * st.claimed != {} then
      Failure(Overlap)
    else
      match MatchSides(c.nodes, s, i.positionTolerance)
      case None => Failure(Nonconformal)
      case Some(local) =>
        if !SameTopology(Mapped(s, st.weld, local), s.primaryFacets) then Failure(Nonconformal)
        else if !AllOpposed(c.nodes, Mapped(s, st.weld, local), s.primaryFacets) then Failure(OrientationInvalid)
        else Success(Acceptance(local, s.secondaryNodes + s.primaryNodes))
  }

  predicate AllShared(interactions: seq<Interaction>) {
    forall j :: 0 <= j < |interactions| ==> interactions[j].SharedTopology?
  }

  function Next(st: WeldState, a: Acceptance): WeldState {
    WeldState(st.weld + a.local, st.claimed + a.interfaceNodes)
  }

  /** Accept the interactions one after the other, until one is refused. */
  function WeldAll(c: Interface, interactions: seq<Interaction>): Result<WeldState, WeldError>
    requires c.Valid() && AllShared(interactions)
  {
    if interactions == [] then Success(WeldState(map[], {}))
    else
      var st :- WeldAll(c, interactions[..|interactions| - 1]);
      var accepted :- Accept(c, interactions[|interactions| - 1], st);
      Success(Next(st, accepted))
  }
}
