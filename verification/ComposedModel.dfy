/** The whole composition of a request, and what a successful one guarantees. */
module ComposedModel {
  import opened Wrappers
  import opened Ascending
  import opened FemModel
  import opened InterfaceWeld
  import opened WeldSoundness
  import opened Compaction
  import opened WeldedModel
  import opened WeldedInterfaces
  import opened NodeBalance
  import opened SharedTopology
  import opened Composition
  import opened NodeLists

  // ---------------------------------------------------------------- one mesh per domain

  /** The meshes by domain id; a later entry for the same id replaces an earlier one. */
  function Supplied(meshed: seq<MeshedDomain>): map<string, Mesh> {
    if meshed == [] then map[]
    else Supplied(meshed[..|meshed| - 1])[meshed[|meshed| - 1].domainId := meshed[|meshed| - 1].mesh]
  }

  predicate MappingAccepted(request: Request, meshed: seq<MeshedDomain>) {
    var supplied := Supplied(meshed);
    && |supplied| == |meshed| && |supplied| == |request.domains|
    && forall d | 0 <= d < |request.domains| :: request.domains[d].domainId in supplied
  }

  function MeshedIds(meshed: seq<MeshedDomain>): (r: seq<string>)
    ensures |r| == |meshed|
  {
    seq(|meshed|, k requires 0 <= k < |meshed| => meshed[k].domainId)
  }

  function RequestIds(request: Request): (r: seq<string>)
    ensures |r| == |request.domains|
  {
    seq(|request.domains|, d requires 0 <= d < |request.domains| => request.domains[d].domainId)
  }

  function Elements<T>(s: seq<T>): set<T> {
    set x | x in s
  }

  lemma {:induction false} SuppliedKeys(meshed: seq<MeshedDomain>)
    ensures Supplied(meshed).Keys == Elements(MeshedIds(meshed))
  {
    if meshed != [] {
      var init, last := meshed[..|meshed| - 1], meshed[|meshed| - 1];
      SuppliedKeys(init);
      assert MeshedIds(meshed) == MeshedIds(init) + [last.domainId];
    }
  }

  /** The three size and membership checks together say that every domain has
      exactly one mesh and no mesh is left over. */
  lemma MappingIsExact(request: Request, meshed: seq<MeshedDomain>)
    requires ValidRequest(request)
    ensures MappingAccepted(request, meshed) <==>
      Distinct(MeshedIds(meshed)) && Elements(MeshedIds(meshed)) == Elements(RequestIds(request))
  {
    var ids, wanted := MeshedIds(meshed), RequestIds(request);
    SuppliedKeys(meshed);
    DistinctSize(ids);
    DistinctSize(wanted);
    assert |Supplied(meshed)| == |Supplied(meshed).Keys|;
    if MappingAccepted(request, meshed) {
      assert Elements(wanted) <= Elements(ids) by {
        forall id | id in wanted ensures id in Supplied(meshed) {
          var d :| 0 <= d < |wanted| && wanted[d] == id;
        }
      }
      SameSizeSubset(Elements(wanted), Elements(ids));
    }
    if Distinct(ids) && Elements(ids) == Elements(wanted) {
      forall d | 0 <= d < |request.domains| ensures request.domains[d].domainId in Supplied(meshed) {
        assert wanted[d] in Elements(wanted);
      }
    }
  }

  // ---------------------------------------------------------------- the two sides of an interaction

  ghost predicate Lists(mesh: Mesh, ref: string) {
    exists r :: 0 <= r < |mesh.boundaryRegions| && ref in mesh.boundaryRegions[r].semanticReferenceIds
  }

  ghost predicate ListsBothSides(mesh: Mesh, x: Interaction)
    requires x.SharedTopology?
  {
    exists s, p :: s in x.secondaryReferenceIds && p in x.primaryReferenceIds && Lists(mesh, s) && Lists(mesh, p)
  }

  /** No domain's mesh lists a secondary and a primary reference of the interaction. */
  ghost predicate InDifferentDomains(request: Request, supplied: map<string, Mesh>, x: Interaction)
    requires Supplies(request, supplied) && x.SharedTopology?
  {
    forall d :: 0 <= d < |request.domains| ==> !ListsBothSides(supplied[request.domains[d].domainId], x)
  }

  lemma {:induction false} RegionOrigin(request: Request, supplied: map<string, Mesh>, k: nat, r: nat) returns (d: nat)
    requires ValidRequest(request) && Supplies(request, supplied) && k <= |request.domains|
    requires ComposeFirst(request, supplied, k).Success? &&
      r < |ComposeFirst(request, supplied, k).value.boundaryRegions|
    ensures d < k && ComposeFirst(request, supplied, k).value.boundaryRegions[r].domainId == request.domains[d].domainId
    ensures forall ref :: ref in ComposeFirst(request, supplied, k).value.boundaryRegions[r].semanticReferenceIds ==>
      Lists(supplied[request.domains[d].domainId], ref)
  {
    var before := ComposeFirst(request, supplied, k - 1).value.boundaryRegions;
    if r < |before| {
      d := RegionOrigin(request, supplied, k - 1, r);
    } else {
      d := k - 1;
      var mesh := supplied[request.domains[d].domainId];
      forall ref | ref in mesh.boundaryRegions[r - |before|].semanticReferenceIds ensures Lists(mesh, ref) {
      }
    }
  }

  lemma SidesStayApart(request: Request, supplied: map<string, Mesh>, x: Interaction)
    requires ValidRequest(request) && Supplies(request, supplied) &&
      ComposeFirst(request, supplied, |request.domains|).Success?
    requires x.SharedTopology? && InDifferentDomains(request, supplied, x)
    ensures SidesApart(InterfaceOf(ComposeFirst(request, supplied, |request.domains|).value), x)
  {
    var m := ComposeFirst(request, supplied, |request.domains|).value;
    var regionOf := InterfaceOf(m).regionOf;
    forall s, p | s in x.secondaryReferenceIds && p in x.primaryReferenceIds && s in regionOf && p in regionOf
      ensures regionOf[s].domainId != regionOf[p].domainId
    {
      var r := RegionsByReferenceSound(m.boundaryRegions, s);
      var q := RegionsByReferenceSound(m.boundaryRegions, p);
      var d := RegionOrigin(request, supplied, |request.domains|, r);
      var e := RegionOrigin(request, supplied, |request.domains|, q);
    }
  }

  // ---------------------------------------------------------------- the whole composition

  ghost predicate Composable(request: Request, meshed: seq<MeshedDomain>) {
    && ValidRequest(request)
    && (forall k :: 0 <= k < |meshed| ==> ValidMesh(meshed[k].mesh))
    && (MappingAccepted(request, meshed) ==>
          forall x :: x in request.interactions && x.SharedTopology? ==>
            InDifferentDomains(request, Supplied(meshed), x))
  }

  lemma {:induction false} SuppliedValid(meshed: seq<MeshedDomain>)
    requires forall k :: 0 <= k < |meshed| ==> ValidMesh(meshed[k].mesh)
    ensures forall id :: id in Supplied(meshed) ==> ValidMesh(Supplied(meshed)[id])
  {
    if meshed != [] {
      SuppliedValid(meshed[..|meshed| - 1]);
    }
  }

  lemma ComposedWeldable(request: Request, meshed: seq<MeshedDomain>)
    requires Composable(request, meshed) && MappingAccepted(request, meshed)
    requires ComposeFirst(request, Supplied(meshed), |request.domains|).Success?
    ensures Weldable(ComposeFirst(request, Supplied(meshed), |request.domains|).value,
                     HomeFirst(request, Supplied(meshed), |request.domains|), request.interactions)
  {
    SuppliedValid(meshed);
    ComposedIsWellFormed(request, Supplied(meshed), |request.domains|);
    forall x | x in request.interactions && x.SharedTopology?
      ensures SidesApart(InterfaceOf(ComposeFirst(request, Supplied(meshed), |request.domains|).value), x)
    {
      SidesStayApart(request, Supplied(meshed), x);
    }
  }

  /** Check the mapping, append every domain, weld the shared interfaces. */
  function Compose(request: Request, meshed: seq<MeshedDomain>): Result<Composed, ComposeError>
    requires Composable(request, meshed)
  {
    if !MappingAccepted(request, meshed) then Failure(DomainMappingInvalid)
    else
      match ComposeFirst(request, Supplied(meshed), |request.domains|)
      case Failure(error) => Failure(error)
      case Success(m) =>
        ComposedWeldable(request, meshed);
        match ApplyWeld(m, HomeFirst(request, Supplied(meshed), |request.domains|), request.interactions)
        case Failure(error) => Failure(WeldRefused(error))
        case Success(welded) => Success(welded)
  }

  // ---------------------------------------------------------------- what a refusal means

  /** The mesh was made for this request and this shape, in the part's own coordinates. */
  ghost predicate MadeFor(request: Request, d: Domain, mesh: Mesh) {
    && (mesh.requestDigest, mesh.projectRevision, mesh.geometryDigest) ==
       (request.requestDigest, request.projectRevision, d.geometryDigest)
    && mesh.coordinateSpace == "part_definition_local"
  }

  ghost predicate AllMadeFor(request: Request, supplied: map<string, Mesh>, k: nat)
    requires Supplies(request, supplied) && k <= |request.domains|
  {
    forall d :: 0 <= d < k ==> MadeFor(request, request.domains[d], supplied[request.domains[d].domainId])
  }

  lemma {:induction false} ComposedFirstExactly(request: Request, supplied: map<string, Mesh>, k: nat)
    requires ValidRequest(request) && Supplies(request, supplied) && k <= |request.domains|
    ensures ComposeFirst(request, supplied, k).Success? <==> AllMadeFor(request, supplied, k)
    ensures !AllMadeFor(request, supplied, k) ==> ComposeFirst(request, supplied, k) == Failure(DomainIdentityInvalid)
  {
    if k > 0 {
      ComposedFirstExactly(request, supplied, k - 1);
    }
  }

  /** Each domain gets the mesh that comes with its id. */
  lemma {:induction false} OwnMesh(meshed: seq<MeshedDomain>, k: nat)
    requires Distinct(MeshedIds(meshed)) && k < |meshed|
    ensures meshed[k].domainId in Supplied(meshed) && Supplied(meshed)[meshed[k].domainId] == meshed[k].mesh
  {
    var init := meshed[..|meshed| - 1];
    if k < |init| {
      assert MeshedIds(init) == MeshedIds(meshed)[..|init|];
      OwnMesh(init, k);
      assert MeshedIds(meshed)[k] != MeshedIds(meshed)[|init|];
    }
  }

  /** A composition is refused for its mapping exactly without one mesh per domain, and for
      an identity exactly if a mesh was made for something else. */
  lemma RefusedExactly(request: Request, meshed: seq<MeshedDomain>)
    requires Composable(request, meshed)
    ensures Compose(request, meshed) == Failure(DomainMappingInvalid) <==>
      !Distinct(MeshedIds(meshed)) || Elements(MeshedIds(meshed)) != Elements(RequestIds(request))
    ensures Compose(request, meshed) == Failure(DomainIdentityInvalid) <==>
      MappingAccepted(request, meshed) && !AllMadeFor(request, Supplied(meshed), |request.domains|)
  {
    MappingIsExact(request, meshed);
    if MappingAccepted(request, meshed) {
      ComposedFirstExactly(request, Supplied(meshed), |request.domains|);
    }
  }

  /** Otherwise it is refused exactly if the interfaces of the concatenation cannot be
      welded, and for the same reason. */
  lemma WeldRefusedExactly(request: Request, meshed: seq<MeshedDomain>, m: Composed, error: WeldError)
    requires Composable(request, meshed) && MappingAccepted(request, meshed)
    requires ComposeFirst(request, Supplied(meshed), |request.domains|) == Success(m)
    ensures InterfaceOf(m).Valid() && AllShared(SharedInOrder(request.interactions))
    ensures Compose(request, meshed) == Failure(WeldRefused(error)) <==>
      SharedInOrder(request.interactions) != [] &&
        WeldAll(InterfaceOf(m), SharedInOrder(request.interactions)) == Failure(error)
  {
    ComposedWeldable(request, meshed);
    WeldableApplicable(m, HomeFirst(request, Supplied(meshed), |request.domains|), request.interactions);
  }

  // ---------------------------------------------------------------- what success means

  /** Before any weld the domains list every node exactly once. */
  lemma {:induction false} ListedBeforeWeld(request: Request, supplied: map<string, Mesh>, k: nat)
    requires ValidRequest(request) && Supplies(request, supplied) && k <= |request.domains|
    requires ComposeFirst(request, supplied, k).Success?
    ensures ListedNodes(ComposeFirst(request, supplied, k).value.domainRegions) ==
      |ComposeFirst(request, supplied, k).value.nodes|
  {
    if k > 0 {
      ListedBeforeWeld(request, supplied, k - 1);
      var m := ComposeFirst(request, supplied, k - 1).value;
      var o := ComposeFirst(request, supplied, k).value;
      assert o.domainRegions[..|o.domainRegions| - 1] == m.domainRegions;
    }
  }

  /** A model without shared interactions is the plain concatenation. Its domains
      list every node of their meshes, so exactly the nodes their elements use if
      and only if the mesh uses all its nodes. */
  lemma UnweldedComposition(request: Request, meshed: seq<MeshedDomain>, o: Composed)
    requires Composable(request, meshed) && Compose(request, meshed) == Success(o)
    requires SharedInOrder(request.interactions) == []
    ensures MappingAccepted(request, meshed)
    ensures ComposeFirst(request, Supplied(meshed), |request.domains|) == Success(o)
    ensures ListedNodes(o.domainRegions) == |o.nodes| && |o.domainRegions| == |request.domains|
    ensures forall d :: 0 <= d < |request.domains| ==>
      (ListsOwnNodes(o.elements, o.domainRegions[d]) <==>
        UsesAllNodes(Supplied(meshed)[request.domains[d].domainId]))
    ensures BoundaryListed(o)
  {
    var supplied, count := Supplied(meshed), |request.domains|;
    SuppliedValid(meshed);
    ListedBeforeWeld(request, supplied, count);
    ListedFirst(request, supplied, count);
    ComposedIsWellFormed(request, supplied, count);
    HomeListsBoundary(o, HomeFirst(request, supplied, count));
  }

  /** What the composition guarantees about its result `o` when interfaces are
      welded: `m` is the plain concatenation and `st` the replacements made. */
  ghost predicate SoundlyWelded(m: Composed, ordered: seq<Interaction>, st: WeldState, o: Composed) {
    && InterfaceOf(m).Valid() && AllShared(ordered)
    && ValidEntries(m.elements, o.elements, |o.nodes|)
    && ValidEntries(m.facets, o.facets, |o.nodes|)
    && UsesExactly(o.elements, |o.nodes|)
    && FollowNodes(m, st.weld, m.elements, o.elements) && FollowNodes(m, st.weld, m.facets, o.facets)
    && (forall n :: n in NodesOf(m.elements) ==> StaysWithinTolerance(m, ordered, st.weld, o, n))
    && ListedNodes(o.domainRegions) == |o.nodes| + |st.weld|
    && (forall d :: 0 <= d < |o.domainRegions| ==> ListsOwnNodes(o.elements, o.domainRegions[d])) && BoundaryListed(o)
    && InterfaceOf(o).Valid()
    && (forall j :: 0 <= j < |ordered| ==> SharedInterface(InterfaceOf(o), ordered[j]))
  }

  /** Every successful composition with shared interactions is soundly welded:
      valid connectivity without unused nodes, every slot on the node it had or was
      merged into, no coordinate moved beyond its interface's tolerance, every domain
      listing exactly its own nodes, interfaces shared exactly, and a node count that
      balances. */
  lemma WeldedComposition(request: Request, meshed: seq<MeshedDomain>, o: Composed) returns (m: Composed, st: WeldState)
    requires Composable(request, meshed) && Compose(request, meshed) == Success(o)
    requires SharedInOrder(request.interactions) != []
    ensures MappingAccepted(request, meshed)
    ensures ComposeFirst(request, Supplied(meshed), |request.domains|) == Success(m)
    ensures Compactable(m, st.weld) && o == Compacted(m, st.weld)
    ensures SoundlyWelded(m, SharedInOrder(request.interactions), st, o)
  {
    var home, ordered := HomeFirst(request, Supplied(meshed), |request.domains|), SharedInOrder(request.interactions);
    m := ComposeFirst(request, Supplied(meshed), |request.domains|).value;
    ComposedWeldable(request, meshed);
    WeldableApplicable(m, home, request.interactions);
    st := WeldAll(InterfaceOf(m), ordered).value;
    WeldIsSound(m, home, ordered, st);
  }

  lemma WeldIsSound(m: Composed, home: seq<string>, ordered: seq<Interaction>, st: WeldState)
    requires Applicable(m, home, ordered) && InterfaceOf(m).Valid() && Reaches(InterfaceOf(m), ordered, st) &&
      ordered != []
    ensures Compactable(m, st.weld) && SoundlyWelded(m, ordered, st, Compacted(m, st.weld))
  {
    ReachedCompactable(m, home, ordered, st);
    ConnectivityIsValid(m, home, st);
    SlotsFollowTheirNodes(m, home, st);
    forall n | n in NodesOf(m.elements) ensures StaysWithinTolerance(m, ordered, st.weld, Compacted(m, st.weld), n) {
      CoordinateWithinTolerance(m, home, ordered, st, n);
    }
    NodesBalance(m, home, ordered, st);
    forall d | 0 <= d < |m.domainRegions|
      ensures ListsOwnNodes(Compacted(m, st.weld).elements, Compacted(m, st.weld).domainRegions[d])
    {
      WeldedListsOwn(m, home, st, d);
    }
    WeldedBoundary(m, home, st);
    InterfacesCoincide(m, home, ordered, st, 0);
    forall j | 0 <= j < |ordered| ensures SharedInterface(InterfaceOf(Compacted(m, st.weld)), ordered[j]) {
      InterfacesCoincide(m, home, ordered, st, j);
    }
  }
}
