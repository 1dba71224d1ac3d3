/** The interfaces as the solver reads them: after renumbering, the two sides of
    every shared-topology interaction list the same nodes and the same facets. */
module WeldedInterfaces {
  import opened Wrappers
  import opened Ascending
  import opened FemModel
  import opened InterfaceWeld
  import opened WeldSoundness
  import opened WeldGeometry
  import opened WeldConformity
  import opened Compaction
  import opened WeldedModel

  // ---------------------------------------------------------------- keys under renumbering

  /** A renumbered facet holds the number of a node as often as the facet holds the node. */
  lemma {:induction false} Multiplicity(used: set<nat>, f: Facet, x: nat)
    requires x in used && forall i :: 0 <= i < |f| ==> f[i] in used
    ensures FacetKey(RenumberEntry(used, f))[Rank(used, x)] == FacetKey(f)[x]
  {
    if f != [] {
      var init, last := f[..|f| - 1], f[|f| - 1];
      Multiplicity(used, init, x);
      assert f == init + [last];
      assert RenumberEntry(used, f) == RenumberEntry(used, init) + [Rank(used, last)];
    }
  }

  /** Renumbering neither merges nor splits facet keys. */
  lemma KeysFollow(used: set<nat>, f: Facet, g: Facet)
    requires forall i :: 0 <= i < |f| ==> f[i] in used
    requires forall i :: 0 <= i < |g| ==> g[i] in used
    ensures FacetKey(RenumberEntry(used, f)) == FacetKey(RenumberEntry(used, g)) <==> FacetKey(f) == FacetKey(g)
  {
    SortedIsSet(used);
    var rf, rg := RenumberEntry(used, f), RenumberEntry(used, g);
    if FacetKey(f) == FacetKey(g) {
      forall y: nat ensures FacetKey(rf)[y] == FacetKey(rg)[y] {
        if y < |used| {
          var x := Sorted(used)[y];
          assert Rank(used, x) == y;
          Multiplicity(used, f, x);
          Multiplicity(used, g, x);
        }
      }
    }
    if FacetKey(rf) == FacetKey(rg) {
      forall x: nat ensures FacetKey(f)[x] == FacetKey(g)[x] {
        if x in used {
          Multiplicity(used, f, x);
          Multiplicity(used, g, x);
        }
      }
    }
  }

  lemma RenumberedKeys(used: set<nat>, a: seq<Facet>, b: seq<Facet>)
    requires AllIn(a, used) && AllIn(b, used)
    ensures Distinct(Keys(a)) ==> Distinct(Keys(Renumber(used, a)))
    ensures KeySet(a) == KeySet(b) ==> KeySet(Renumber(used, a)) <= KeySet(Renumber(used, b))
  {
    if Distinct(Keys(a)) {
      forall i, j | 0 <= i < j < |a| ensures Keys(Renumber(used, a))[i] != Keys(Renumber(used, a))[j] {
        assert Keys(a)[i] != Keys(a)[j];
        KeysFollow(used, a[i], a[j]);
      }
    }
    if KeySet(a) == KeySet(b) {
      forall key | key in KeySet(Renumber(used, a)) ensures key in KeySet(Renumber(used, b)) {
        var i :| 0 <= i < |a| && Keys(Renumber(used, a))[i] == key;
        assert Keys(a)[i] in KeySet(b);
        var j :| 0 <= j < |b| && Keys(b)[j] == Keys(a)[i];
        KeysFollow(used, a[i], b[j]);
        assert Keys(Renumber(used, b))[j] == key;
      }
    }
  }

  lemma KeysGiveNodes(a: seq<Facet>, b: seq<Facet>)
    requires KeySet(a) == KeySet(b)
    ensures NodesOf(a) <= NodesOf(b)
  {
    forall n | n in NodesOf(a) ensures n in NodesOf(b) {
      var e, i := EntryOfNode(a, n);
      assert Keys(a)[e] in KeySet(b);
      var k :| 0 <= k < |b| && Keys(b)[k] == Keys(a)[e];
      assert n in FacetKey(a[e]);
      assert n in FacetKey(b[k]);
      var l :| 0 <= l < |b[k]| && b[k][l] == n;
      NodeOfEntry(b, k, l);
    }
  }

  // ---------------------------------------------------------------- the sides in the final numbering

  lemma {:induction false} FinalSide(m: Composed, weld: map<nat, nat>, refs: seq<string>)
    requires Compactable(m, weld) && InterfaceOf(m).Valid() && SideFacets(InterfaceOf(m), refs).Success?
    ensures InterfaceOf(Compacted(m, weld)).Valid()
    ensures var side, used := SideFacets(InterfaceOf(m), refs).value, NodesOf(Rewrite(weld, m.elements));
      && AllIn(Rewrite(weld, side), used)
      && SideFacets(InterfaceOf(Compacted(m, weld)), refs) == Success(Renumber(used, Rewrite(weld, side)))
  {
    var c, used := InterfaceOf(m), NodesOf(Rewrite(weld, m.elements));
    var c' := InterfaceOf(Compacted(m, weld));
    assert c'.regionOf == c.regionOf && c'.facets == Renumber(used, Rewrite(weld, m.facets));
    if refs != [] {
      var init, last := refs[..|refs| - 1], refs[|refs| - 1];
      FinalSide(m, weld, init);
      var before := SideFacets(c, init).value;
      var facets := RegionFacets(c, c.regionOf[last]);
      FinalRegion(m, weld, c.regionOf[last]);
      FinalAppend(weld, used, before, facets);
    }
  }

  lemma FinalAppend(weld: map<nat, nat>, used: set<nat>, a: seq<Facet>, b: seq<Facet>)
    requires AllIn(Rewrite(weld, a), used) && AllIn(Rewrite(weld, b), used)
    ensures AllIn(Rewrite(weld, a + b), used)
    ensures Renumber(used, Rewrite(weld, a + b)) == Renumber(used, Rewrite(weld, a)) + Renumber(used, Rewrite(weld, b))
  {
    assert Rewrite(weld, a + b) == Rewrite(weld, a) + Rewrite(weld, b);
  }

  lemma FinalRegion(m: Composed, weld: map<nat, nat>, region: BoundaryRegion)
    requires Compactable(m, weld) && Below(region.facetIndices, |m.facets|)
    ensures var c, c' := InterfaceOf(m), InterfaceOf(Compacted(m, weld));
      var used := NodesOf(Rewrite(weld, m.elements));
      && AllIn(Rewrite(weld, RegionFacets(c, region)), used)
      && RegionFacets(c', region) == Renumber(used, Rewrite(weld, RegionFacets(c, region)))
  {
    var c, used := InterfaceOf(m), NodesOf(Rewrite(weld, m.elements));
    var facets := Rewrite(weld, RegionFacets(c, region));
    forall e, i | 0 <= e < |facets| && 0 <= i < |facets[e]| ensures facets[e][i] in used {
      assert facets[e] == Rewrite(weld, m.facets)[region.facetIndices[e]];
    }
  }

  /** The check the solver deck makes before it trusts a shared interface: both
      sides list some facets, the same ones, over the same nodes. */
  ghost predicate SharedInterface(c: Interface, i: Interaction)
    requires c.Valid() && i.SharedTopology?
  {
    && SideFacets(c, i.secondaryReferenceIds).Success?
    && SideFacets(c, i.primaryReferenceIds).Success?
    && var secondary := SideFacets(c, i.secondaryReferenceIds).value;
       var primary := SideFacets(c, i.primaryReferenceIds).value;
       && |secondary| == |primary| > 0
       && Distinct(Keys(secondary)) && Distinct(Keys(primary))
       && KeySet(secondary) == KeySet(primary)
       && NodesOf(secondary) == NodesOf(primary)
       && FacingPairs(c.nodes, secondary, primary)
  }

  /** A node keeps its coordinate under its new number. */
  lemma RenumberedPoint(m: Composed, weld: map<nat, nat>, n: nat)
    requires Compactable(m, weld) && n in NodesOf(Rewrite(weld, m.elements))
    ensures var used, o := NodesOf(Rewrite(weld, m.elements)), Compacted(m, weld);
      n < |m.nodes| && Rank(used, n) < |o.nodes| && o.nodes[Rank(used, n)] == m.nodes[n]
  {
  }

  lemma RenumberedFacet(m: Composed, weld: map<nat, nat>, f: Facet)
    requires Compactable(m, weld) && forall i :: 0 <= i < |f| ==> f[i] in NodesOf(Rewrite(weld, m.elements))
    ensures var used, o := NodesOf(Rewrite(weld, m.elements)), Compacted(m, weld);
      && (ValidFacet(m.nodes, f) <==> ValidFacet(o.nodes, RenumberEntry(used, f)))
      && (ValidFacet(m.nodes, f) ==> Normal(o.nodes, RenumberEntry(used, f)) == Normal(m.nodes, f))
  {
    forall i | 0 <= i < |f|
      ensures f[i] < |m.nodes|
      ensures Rank(NodesOf(Rewrite(weld, m.elements)), f[i]) < |Compacted(m, weld).nodes|
      ensures Compacted(m, weld).nodes[Rank(NodesOf(Rewrite(weld, m.elements)), f[i])] == m.nodes[f[i]]
    {
      RenumberedPoint(m, weld, f[i]);
    }
  }

  /** Facets that face away from each other do so in the final numbering. */
  lemma FacingFollows(m: Composed, weld: map<nat, nat>, secondary: seq<Facet>, primary: seq<Facet>)
    requires Compactable(m, weld) && FacingPairs(m.nodes, secondary, primary)
    requires AllIn(secondary, NodesOf(Rewrite(weld, m.elements))) && AllIn(primary, NodesOf(Rewrite(weld, m.elements)))
    ensures var used := NodesOf(Rewrite(weld, m.elements));
      FacingPairs(Compacted(m, weld).nodes, Renumber(used, secondary), Renumber(used, primary))
  {
    var used, o := NodesOf(Rewrite(weld, m.elements)), Compacted(m, weld);
    forall j | 0 <= j < |secondary|
      ensures HasOpposite(o.nodes, Renumber(used, secondary)[j], Renumber(used, primary))
    {
      assert HasOpposite(m.nodes, secondary[j], primary);
      var k :| 0 <= k < |primary| && FacetKey(primary[k]) == FacetKey(secondary[j]) &&
        FacesAway(m.nodes, secondary[j], primary[k]);
      KeysFollow(used, primary[k], secondary[j]);
      RenumberedFacet(m, weld, secondary[j]);
      RenumberedFacet(m, weld, primary[k]);
      assert FacesAway(o.nodes, Renumber(used, secondary)[j], Renumber(used, primary)[k]);
    }
  }

  /** A composition that succeeds yields shared interfaces throughout. */
  lemma InterfacesCoincide(m: Composed, home: seq<string>, interactions: seq<Interaction>, st: WeldState, j: nat)
    requires Applicable(m, home, interactions) && InterfaceOf(m).Valid() && Reaches(InterfaceOf(m), interactions, st)
    requires j < |interactions|
    ensures Compactable(m, st.weld) && InterfaceOf(Compacted(m, st.weld)).Valid()
    ensures SharedInterface(InterfaceOf(Compacted(m, st.weld)), interactions[j])
  {
    var c, i := InterfaceOf(m), interactions[j];
    ApplicableAdmitted(m, home, interactions);
    WeldSound(c, home, interactions, st);
    SoundCompactable(m, home, st);
    AllConform(c, home, interactions, st, j);
    FinalSide(m, st.weld, i.secondaryReferenceIds);
    FinalSide(m, st.weld, i.primaryReferenceIds);
    var used := NodesOf(Rewrite(st.weld, m.elements));
    var secondary := Rewrite(st.weld, SideFacets(c, i.secondaryReferenceIds).value);
    var primary := Rewrite(st.weld, SideFacets(c, i.primaryReferenceIds).value);
    RenumberedKeys(used, secondary, primary);
    RenumberedKeys(used, primary, secondary);
    KeysGiveNodes(Renumber(used, secondary), Renumber(used, primary));
    KeysGiveNodes(Renumber(used, primary), Renumber(used, secondary));
    FacingFollows(m, st.weld, secondary, primary);
  }

  // ---------------------------------------------------------------- the regions the deck requires

  ghost predicate SoleRegion(regions: seq<BoundaryRegion>, ref: string, r: nat) {
    && r < |regions| && ref in regions[r].semanticReferenceIds
    && forall q :: 0 <= q < |regions| && q != r ==> ref !in regions[q].semanticReferenceIds
  }

  /** The deck wants each reference listed by exactly one region. That is then the
      region the weld has used. */
  lemma SoleRegionIsRead(regions: seq<BoundaryRegion>, ref: string, r: nat)
    requires SoleRegion(regions, ref, r)
    ensures ref in RegionsByReference(regions) && RegionsByReference(regions)[ref] == regions[r]
  {
    ListedIsFound(regions, ref, r);
    var q := RegionsByReferenceSound(regions, ref);
  }

  lemma {:induction false} ListedIsFound(regions: seq<BoundaryRegion>, ref: string, r: nat)
    requires r < |regions| && ref in regions[r].semanticReferenceIds
    ensures ref in RegionsByReference(regions)
  {
    var last := |regions| - 1;
    if ref !in regions[last].semanticReferenceIds {
      ListedIsFound(regions[..last], ref, r);
    }
  }

  lemma {:induction false} SideFacetAt(c: Interface, refs: seq<string>, a: nat) returns (i: nat)
    requires c.Valid() && SideFacets(c, refs).Success? && a < |refs|
    ensures refs[a] in c.regionOf && SideFacets(c, refs[..a]).Success? && i == |SideFacets(c, refs[..a]).value|
    ensures i + |c.regionOf[refs[a]].facetIndices| <= |SideFacets(c, refs).value|
    ensures forall k :: 0 <= k < |c.regionOf[refs[a]].facetIndices| ==>
      SideFacets(c, refs).value[i + k] == RegionFacets(c, c.regionOf[refs[a]])[k]
  {
    var init := refs[..|refs| - 1];
    if a < |init| {
      i := SideFacetAt(c, init, a);
      assert init[..a] == refs[..a];
      var before, after := SideFacets(c, init).value, SideFacets(c, refs).value;
      assert after[..|before|] == before;
    } else {
      assert refs[..a] == init;
      i := |SideFacets(c, init).value|;
    }
  }

  lemma SideBefore(c: Interface, refs: seq<string>, a: nat, b: nat)
    requires c.Valid() && a < b <= |refs| && SideFacets(c, refs[..b]).Success? && refs[a] in c.regionOf
    ensures SideFacets(c, refs[..a]).Success?
    ensures |SideFacets(c, refs[..a]).value| + |c.regionOf[refs[a]].facetIndices| <= |SideFacets(c, refs[..b]).value|
  {
    var i := SideFacetAt(c, refs[..b], a);
    assert refs[..b][..a] == refs[..a];
  }

  /** The deck also refuses two references that lead to one region. On a shared
      interface no region with facets is listed twice. */
  lemma NoRegionTwice(c: Interface, refs: seq<string>, a: nat, b: nat)
    requires c.Valid() && SideFacets(c, refs).Success? && Distinct(Keys(SideFacets(c, refs).value))
    requires a < b < |refs| && refs[a] in c.regionOf && c.regionOf[refs[a]].facetIndices != []
    ensures refs[b] in c.regionOf && c.regionOf[refs[a]] != c.regionOf[refs[b]]
  {
    var i := SideFacetAt(c, refs, a);
    var j := SideFacetAt(c, refs, b);
    SideBefore(c, refs, a, b);
    if c.regionOf[refs[b]].facetIndices != [] {
      var side := SideFacets(c, refs).value;
      assert Keys(side)[i] != Keys(side)[j];
      assert side[i + 0] == RegionFacets(c, c.regionOf[refs[a]])[0] &&
        side[j + 0] == RegionFacets(c, c.regionOf[refs[b]])[0];
    }
  }
}
