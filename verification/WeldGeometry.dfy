/** What the checks of an interface mean: when nodes count as near, when facets count
    as opposed, in terms of the angle between their normals and of the order of
    their corners, and which check it is that refuses. */
module WeldGeometry {
  import opened Wrappers
  import opened FemModel
  import opened TetraGeometry
  import opened InterfaceWeld

  // ---------------------------------------------------------------- the distance of two nodes

  /** Two nodes are near each other exactly if their distance, `d`, is at most the
      tolerance. */
  lemma NearExactly(nodes: seq<Vec3>, tolerance: real, n: nat, p: nat, d: real)
    requires n < |nodes| && p < |nodes| && d >= 0.0 && d * d == SquaredLength(nodes[n].Minus(nodes[p]))
    ensures Near(nodes, tolerance)(n, p) <==> d <= tolerance
  {
    if tolerance >= 0.0 {
      SquareOrder(tolerance, d);
    }
  }

  // ---------------------------------------------------------------- the angle between the normals

  /** Two vectors, neither of them zero, that point to opposite sides, at most some
      26 degrees from being exactly opposite. */
  ghost predicate OppositeSides(a: Vec3, b: Vec3) {
    && SquaredLength(a) > 0.0 && SquaredLength(b) > 0.0
    && a.Dot(b) < 0.0 && a.Dot(b) * a.Dot(b) >= 0.81 * SquaredLength(a) * SquaredLength(b)
  }

  /** The normals of the two facets point to opposite sides. */
  ghost predicate FacesAway(nodes: seq<Vec3>, f: Facet, g: Facet) {
    && ValidFacet(nodes, f) && ValidFacet(nodes, g)
    && OppositeSides(Normal(nodes, f), Normal(nodes, g))
  }

  lemma OpposedFacesAway(nodes: seq<Vec3>, f: Facet, g: Facet)
    requires Opposed(nodes, f, g)
    ensures FacesAway(nodes, f, g)
  {
  }

  lemma SquareOrder(x: real, y: real)
    requires x >= 0.0 && y >= 0.0
    ensures x >= y <==> x * x >= y * y
  {
    assert x * x - y * y == (x - y) * (x + y);
    if x >= y {
      ProductNonnegative(x - y, x + y);
    } else {
      ProductNonnegative(y - x, x + y);
    }
  }

  /** A product of lengths and its square. */
  lemma ScaledLengths(m: real, n: real, mm: real, nn: real)
    requires m >= 0.0 && n >= 0.0 && mm == m * m && nn == n * n
    ensures 0.9 * (m * n) >= 0.0
    ensures (0.9 * (m * n)) * (0.9 * (m * n)) == 0.81 * mm * nn
  {
    ProductNonnegative(m, n);
    assert (m * n) * (m * n) == mm * nn;
  }

  lemma LengthPositive(m: real, mm: real)
    requires m >= 0.0 && mm == m * m
    ensures mm > 0.0 <==> m > 0.0
  {
    SquareOrder(0.0, m);
  }

  /** The comparison of squares is that of the cosine with -0.9. */
  lemma CosineExactly(dot: real, m: real, n: real, mm: real, nn: real)
    requires m >= 0.0 && n >= 0.0 && mm == m * m && nn == n * n
    ensures mm > 0.0 && nn > 0.0 && dot < 0.0 && dot * dot >= 0.81 * mm * nn <==>
      m > 0.0 && n > 0.0 && dot <= -(0.9 * (m * n))
  {
    LengthPositive(m, mm);
    LengthPositive(n, nn);
    ScaledLengths(m, n, mm, nn);
    if m > 0.0 && n > 0.0 {
      PositiveProduct(m, n);
      if dot < 0.0 {
        SquareOrder(-dot, 0.9 * (m * n));
        assert (-dot) * (-dot) == dot * dot;
      }
    }
  }

  lemma PositiveProduct(x: real, y: real)
    requires x > 0.0 && y > 0.0
    ensures x * y > 0.0
  {
  }

  /** Two facets are opposed exactly if neither is degenerate and the cosine of the
      angle between their normals is at most -0.9; `m` and `n` are the normals'
      lengths. */
  lemma OpposedExactly(nodes: seq<Vec3>, f: Facet, g: Facet, m: real, n: real)
    requires ValidFacet(nodes, f) && ValidFacet(nodes, g) && m >= 0.0 && n >= 0.0
    requires Normal(nodes, f).Dot(Normal(nodes, f)) == m * m && Normal(nodes, g).Dot(Normal(nodes, g)) == n * n
    ensures Opposed(nodes, f, g) <==>
      m > 0.0 && n > 0.0 && Normal(nodes, f).Dot(Normal(nodes, g)) <= -(0.9 * (m * n))
  {
    CosineExactly(Normal(nodes, f).Dot(Normal(nodes, g)), m, n,
      Normal(nodes, f).Dot(Normal(nodes, f)), Normal(nodes, g).Dot(Normal(nodes, g)));
  }

  // ---------------------------------------------------------------- the order of the corners

  /** The corners listed in the same sense, beginning anywhere. */
  ghost predicate SameTurn(f: Facet, g: Facet) {
    && |f| >= 3 && |g| >= 3
    && (|| (f[0] == g[0] && f[1] == g[1] && f[2] == g[2])
        || (f[0] == g[1] && f[1] == g[2] && f[2] == g[0])
        || (f[0] == g[2] && f[1] == g[0] && f[2] == g[1]))
  }

  /** The same corners listed in the opposite sense. */
  ghost predicate OtherTurn(f: Facet, g: Facet) {
    && |f| >= 3 && |g| >= 3
    && (|| (f[0] == g[0] && f[1] == g[2] && f[2] == g[1])
        || (f[0] == g[1] && f[1] == g[0] && f[2] == g[2])
        || (f[0] == g[2] && f[1] == g[1] && f[2] == g[0]))
  }

  function CornerNormal(p: Vec3, q: Vec3, r: Vec3): Vec3 {
    q.Minus(p).Cross(r.Minus(p))
  }

  /** Twice the area of a triangle in the plane, with its sign. */
  function Planar(px: real, py: real, qx: real, qy: real, rx: real, ry: real): real {
    (qx - px) * (ry - py) - (qy - py) * (rx - px)
  }

  lemma PlanarTerms(px: real, py: real, qx: real, qy: real, rx: real, ry: real)
    ensures Planar(px, py, qx, qy, rx, ry) ==
      (px * qy - py * qx) + (qx * ry - qy * rx) + (rx * py - ry * px)
  {
    assert (qx - px) * (ry - py) == qx * ry - qx * py - px * ry + px * py;
    assert (qy - py) * (rx - px) == qy * rx - qy * px - py * rx + py * px;
  }

  lemma PlanarTurned(px: real, py: real, qx: real, qy: real, rx: real, ry: real)
    ensures Planar(qx, qy, rx, ry, px, py) == Planar(px, py, qx, qy, rx, ry) == Planar(rx, ry, px, py, qx, qy)
  {
    PlanarTerms(px, py, qx, qy, rx, ry);
    PlanarTerms(qx, qy, rx, ry, px, py);
    PlanarTerms(rx, ry, px, py, qx, qy);
  }

  lemma NormalIsPlanar(p: Vec3, q: Vec3, r: Vec3)
    ensures CornerNormal(p, q, r) == Vec3(Planar(p.y, p.z, q.y, q.z, r.y, r.z), Planar(p.z, p.x, q.z, q.x, r.z, r.x),
      Planar(p.x, p.y, q.x, q.y, r.x, r.y))
  {
  }

  lemma TurnedNormal(p: Vec3, q: Vec3, r: Vec3)
    ensures CornerNormal(q, r, p) == CornerNormal(p, q, r) && CornerNormal(r, p, q) == CornerNormal(p, q, r)
  {
    NormalIsPlanar(p, q, r);
    NormalIsPlanar(q, r, p);
    NormalIsPlanar(r, p, q);
    PlanarTurned(p.y, p.z, q.y, q.z, r.y, r.z);
    PlanarTurned(p.z, p.x, q.z, q.x, r.z, r.x);
    PlanarTurned(p.x, p.y, q.x, q.y, r.x, r.y);
  }

  lemma SwappedNormal(p: Vec3, q: Vec3, r: Vec3)
    ensures CornerNormal(p, r, q) == Scaled(CornerNormal(p, q, r), -1.0)
  {
  }

  lemma NormalOf(nodes: seq<Vec3>, f: Facet)
    requires ValidFacet(nodes, f)
    ensures Normal(nodes, f) == CornerNormal(nodes[f[0]], nodes[f[1]], nodes[f[2]])
  {
  }

  lemma SameTurnNormal(nodes: seq<Vec3>, f: Facet, g: Facet)
    requires ValidFacet(nodes, f) && ValidFacet(nodes, g) && SameTurn(f, g)
    ensures Normal(nodes, f) == Normal(nodes, g)
  {
    NormalOf(nodes, f);
    NormalOf(nodes, g);
    TurnedNormal(nodes[g[0]], nodes[g[1]], nodes[g[2]]);
  }

  lemma OtherTurnNormal(nodes: seq<Vec3>, f: Facet, g: Facet)
    requires ValidFacet(nodes, f) && ValidFacet(nodes, g) && OtherTurn(f, g)
    ensures Normal(nodes, f) == Scaled(Normal(nodes, g), -1.0)
  {
    var p, q, r := nodes[g[0]], nodes[g[1]], nodes[g[2]];
    NormalOf(nodes, f);
    NormalOf(nodes, g);
    SwappedNormal(p, q, r);
    SwappedNormal(q, r, p);
    SwappedNormal(r, p, q);
    TurnedNormal(p, q, r);
    TurnedNormal(p, r, q);
  }

  /** The corners of the facet do not lie on one line. */
  predicate HasArea(nodes: seq<Vec3>, f: Facet) {
    ValidFacet(nodes, f) && Normal(nodes, f).Dot(Normal(nodes, f)) > 0.0
  }

  lemma ReversedDot(v: Vec3)
    ensures Scaled(v, -1.0).Dot(v) == -v.Dot(v) && Scaled(v, -1.0).Dot(Scaled(v, -1.0)) == v.Dot(v)
  {
  }

  lemma SquareShare(d: real)
    requires d > 0.0
    ensures (-d) * (-d) >= 0.81 * d * d
  {
    PositiveProduct(d, d);
  }

  lemma ReversedIsOpposed(nodes: seq<Vec3>, f: Facet, g: Facet)
    requires HasArea(nodes, g) && ValidFacet(nodes, f) && Normal(nodes, f) == Scaled(Normal(nodes, g), -1.0)
    ensures Opposed(nodes, f, g)
  {
    ReversedDot(Normal(nodes, g));
    SquareShare(Normal(nodes, g).Dot(Normal(nodes, g)));
  }

  /** Of two facets with the same three corners, not on one line, the one is opposed
      to the other exactly if it lists them the other way round. */
  lemma OpposedByOrder(nodes: seq<Vec3>, f: Facet, g: Facet)
    requires ValidFacet(nodes, f) && HasArea(nodes, g) && (SameTurn(f, g) || OtherTurn(f, g))
    ensures Opposed(nodes, f, g) <==> OtherTurn(f, g)
  {
    if OtherTurn(f, g) {
      OtherTurnNormal(nodes, f, g);
      ReversedIsOpposed(nodes, f, g);
    } else {
      SameTurnNormal(nodes, f, g);
      assert Normal(nodes, f).Dot(Normal(nodes, g)) > 0.0;
    }
  }

  /** No facet is opposed to itself. */
  lemma NeverOpposedToItself(nodes: seq<Vec3>, f: Facet)
    ensures !Opposed(nodes, f, f)
  {
  }

  // ---------------------------------------------------------------- acceptance in terms of the order

  /** The facet of the primary side that the mapped one is compared with. */
  function Partner(mapped: Facet, primaryFacets: seq<Facet>): Option<Facet> {
    LastWithKey(primaryFacets, FacetKey(mapped), |primaryFacets|)
  }

  lemma {:induction false} LastFound(facets: seq<Facet>, key: multiset<nat>, k: nat)
    requires k <= |facets|
    ensures LastWithKey(facets, key, k).Some? <==> exists i :: 0 <= i < k && FacetKey(facets[i]) == key
    ensures LastWithKey(facets, key, k).Some? ==> exists i ::
      && 0 <= i < k && facets[i] == LastWithKey(facets, key, k).value && FacetKey(facets[i]) == key
      && forall j :: i < j < k ==> FacetKey(facets[j]) != key
  {
    if k > 0 && FacetKey(facets[k - 1]) != key {
      LastFound(facets, key, k - 1);
    }
  }

  /** A mapped facet is compared with the last primary facet on its nodes, if there is any. */
  lemma PartnerExactly(mapped: Facet, primaryFacets: seq<Facet>)
    ensures Partner(mapped, primaryFacets).Some? <==>
      exists i :: 0 <= i < |primaryFacets| && multiset(primaryFacets[i]) == multiset(mapped)
    ensures Partner(mapped, primaryFacets).Some? ==>
      multiset(Partner(mapped, primaryFacets).value) == multiset(mapped)
  {
    LastFound(primaryFacets, FacetKey(mapped), |primaryFacets|);
    if i :| 0 <= i < |primaryFacets| && multiset(primaryFacets[i]) == multiset(mapped) {
      assert FacetKey(primaryFacets[i]) == FacetKey(mapped);
    }
  }

  /** Each mapped facet has a partner on the same three corners, not on one line. */
  ghost predicate SameCorners(nodes: seq<Vec3>, mapped: seq<Facet>, primaryFacets: seq<Facet>) {
    forall j :: 0 <= j < |mapped| ==>
      && ValidFacet(nodes, mapped[j]) && Partner(mapped[j], primaryFacets).Some?
      && HasArea(nodes, Partner(mapped[j], primaryFacets).value)
      && (SameTurn(mapped[j], Partner(mapped[j], primaryFacets).value) ||
          OtherTurn(mapped[j], Partner(mapped[j], primaryFacets).value))
  }

  ghost predicate AllTurned(mapped: seq<Facet>, primaryFacets: seq<Facet>) {
    forall j :: 0 <= j < |mapped| ==>
      Partner(mapped[j], primaryFacets).Some? && OtherTurn(mapped[j], Partner(mapped[j], primaryFacets).value)
  }

  lemma AllOpposedByOrder(nodes: seq<Vec3>, mapped: seq<Facet>, primaryFacets: seq<Facet>)
    requires SameCorners(nodes, mapped, primaryFacets)
    ensures AllOpposed(nodes, mapped, primaryFacets) <==> AllTurned(mapped, primaryFacets)
  {
    forall j | 0 <= j < |mapped|
      ensures Partner(mapped[j], primaryFacets).Some?
      ensures Opposed(nodes, mapped[j], Partner(mapped[j], primaryFacets).value) <==>
        OtherTurn(mapped[j], Partner(mapped[j], primaryFacets).value)
    {
      OpposedByOrder(nodes, mapped[j], Partner(mapped[j], primaryFacets).value);
    }
  }

  /** An interface that passes every other check, with its facets on the same corners:
      it is accepted exactly if each facet lists them the other way round. */
  lemma AcceptedByOrder(c: Interface, i: Interaction, st: WeldState, s: Sides, local: map<nat, nat>)
    requires c.Valid() && i.SharedTopology? && SidesOf(c, i, st.weld) == Success(s)
    requires 0 < |s.secondaryFacets| == |s.primaryFacets| && |s.secondaryNodes| == |s.primaryNodes|
    requires (s.secondaryNodes + s.primaryNodes) * st.claimed == {}
    requires MatchSides(c.nodes, s, i.positionTolerance) == Some(local)
    requires SameTopology(Mapped(s, st.weld, local), s.primaryFacets)
    requires SameCorners(c.nodes, Mapped(s, st.weld, local), s.primaryFacets)
    ensures Accept(c, i, st) ==
      if AllTurned(Mapped(s, st.weld, local), s.primaryFacets) then
        Success(Acceptance(local, s.secondaryNodes + s.primaryNodes))
      else Failure(OrientationInvalid)
  {
    AllOpposedByOrder(c.nodes, Mapped(s, st.weld, local), s.primaryFacets);
  }

  // ---------------------------------------------------------------- which check refuses

  lemma {:induction false} SideFoundExactly(c: Interface, refs: seq<string>)
    requires c.Valid()
    ensures SideFacets(c, refs).Success? <==> forall ref :: ref in refs ==> ref in c.regionOf
    ensures SideFacets(c, refs).Failure? ==> SideFacets(c, refs) == Failure(RegionInvalid)
  {
    if refs != [] {
      var init, last := refs[..|refs| - 1], refs[|refs| - 1];
      SideFoundExactly(c, init);
      assert refs == init + [last];
      assert last in refs;
    }
  }

  /** The sides have facets, as many on both, and as many nodes. */
  predicate Balanced(s: Sides) {
    0 < |s.secondaryFacets| == |s.primaryFacets| && |s.secondaryNodes| == |s.primaryNodes|
  }

  /** A refusal names the first thing that is wrong: a reference without a region,
      different numbers, a node spoken for, no match or other facets, and last the
      direction. */
  lemma RefusedExactly(c: Interface, i: Interaction, st: WeldState)
    requires c.Valid() && i.SharedTopology?
    ensures Accept(c, i, st) == Failure(RegionInvalid) <==>
      exists ref :: ref in i.secondaryReferenceIds + i.primaryReferenceIds && ref !in c.regionOf
    ensures SidesOf(c, i, st.weld).Success? ==>
      var s := SidesOf(c, i, st.weld).value;
      var matching := MatchSides(c.nodes, s, i.positionTolerance);
      && (Accept(c, i, st) == Failure(Overlap) <==>
            Balanced(s) && exists n :: n in s.secondaryNodes + s.primaryNodes && n in st.claimed)
      && (Accept(c, i, st) == Failure(OrientationInvalid) ==>
            matching.Some? && !AllOpposed(c.nodes, Mapped(s, st.weld, matching.value), s.primaryFacets))
      && (matching.None? && Accept(c, i, st) != Failure(Overlap) ==> Accept(c, i, st) == Failure(Nonconformal))
  {
    SideFoundExactly(c, i.secondaryReferenceIds);
    SideFoundExactly(c, i.primaryReferenceIds);
    if SidesOf(c, i, st.weld).Success? {
      var s := SidesOf(c, i, st.weld).value;
      var both := (s.secondaryNodes + s.primaryNodes) * st.claimed;
      if n :| n in s.secondaryNodes + s.primaryNodes && n in st.claimed {
        assert n in both;
      }
      if both != {} {
        var n :| n in both;
      }
    }
  }

  /** The first interaction that is refused, in order, decides: those before it are welded,
      those after it are not looked at. */
  ghost predicate FirstRefused(c: Interface, interactions: seq<Interaction>, k: nat, error: WeldError)
    requires c.Valid() && AllShared(interactions)
  {
    && k < |interactions| && WeldAll(c, interactions[..k]).Success?
    && Accept(c, interactions[k], WeldAll(c, interactions[..k]).value) == Failure(error)
  }

  lemma EarlierRefused(c: Interface, interactions: seq<Interaction>, k: nat, error: WeldError)
    requires c.Valid() && AllShared(interactions) && k + 1 < |interactions|
    ensures FirstRefused(c, interactions, k, error) <==>
      FirstRefused(c, interactions[..|interactions| - 1], k, error)
  {
    assert interactions[..|interactions| - 1][..k] == interactions[..k];
  }

  lemma {:induction false} RefusedHasFirst(c: Interface, interactions: seq<Interaction>, error: WeldError)
    returns (k: nat)
    requires c.Valid() && AllShared(interactions) && WeldAll(c, interactions) == Failure(error)
    ensures FirstRefused(c, interactions, k, error)
  {
    k := |interactions| - 1;
    if WeldAll(c, interactions[..k]).Failure? {
      k := RefusedHasFirst(c, interactions[..k], error);
      EarlierRefused(c, interactions, k, error);
    }
  }

  lemma {:induction false} FirstDecides(c: Interface, interactions: seq<Interaction>, k: nat, error: WeldError)
    requires c.Valid() && AllShared(interactions) && FirstRefused(c, interactions, k, error)
    ensures WeldAll(c, interactions) == Failure(error)
  {
    if k + 1 < |interactions| {
      EarlierRefused(c, interactions, k, error);
      FirstDecides(c, interactions[..|interactions| - 1], k, error);
    }
  }

  /** The weld is refused exactly if an interaction is, and for the reason of the first. */
  lemma RefusedByFirst(c: Interface, interactions: seq<Interaction>, error: WeldError)
    requires c.Valid() && AllShared(interactions)
    ensures WeldAll(c, interactions) == Failure(error) <==> exists k :: FirstRefused(c, interactions, k, error)
  {
    if WeldAll(c, interactions) == Failure(error) {
      var k := RefusedHasFirst(c, interactions, error);
    }
    if k :| FirstRefused(c, interactions, k, error) {
      FirstDecides(c, interactions, k, error);
    }
  }
}
