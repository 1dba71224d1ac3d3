/** A request that is composed and then refused: one domain whose mesh passed its
    gates and has a node that no element uses. */
module UnusedNodeExample {
  import opened Wrappers
  import opened Ascending
  import opened FemModel
  import opened SharedTopology
  import opened Composition
  import opened NodeLists
  import opened ComposedModel
  import opened Quality
  import opened ModelValidation

  const TEN_NODES: seq<nat> := [0, 1, 2, 3, 4, 5, 6, 7, 8, 9]

  const POINTS: seq<Vec3> := [
    Vec3(0.0, 0.0, 0.0), Vec3(2.0, 0.0, 0.0), Vec3(0.0, 2.0, 0.0), Vec3(0.0, 0.0, 2.0), Vec3(1.0, 0.0, 0.0),
    Vec3(1.0, 1.0, 0.0), Vec3(0.0, 1.0, 0.0), Vec3(0.0, 0.0, 1.0), Vec3(0.0, 1.0, 1.0), Vec3(1.0, 0.0, 1.0),
    Vec3(9.0, 9.0, 9.0)]

  const VOLUME := 8.0 / 6.0

  const MESH := Mesh("request", "revision", "geometry", "part_definition_local", POINTS, [TEN_NODES], [], [],
    MeshQuality(0, 11, 1, 0, 0.8, 0.8, VOLUME, 0.0))

  const IDENTITY: seq<real> := [
    1.0, 0.0, 0.0, 0.0, 0.0, 1.0, 0.0, 0.0, 0.0, 0.0, 1.0, 0.0, 0.0, 0.0, 0.0, 1.0]

  const DOMAIN := Domain("domain", "geometry", IDENTITY, VOLUME)

  const REQUEST := Request("request", "revision", 0.2, [DOMAIN], [])

  const MESHED := [MeshedDomain("domain", MESH)]

  lemma MeshIsSupplied()
    ensures Supplied(MESHED) == map["domain" := MESH]
    ensures MappingAccepted(REQUEST, MESHED) && Supplies(REQUEST, Supplied(MESHED))
  {
    assert MESHED[..0] == [];
    assert Supplied(MESHED[..0]) == map[];
  }

  lemma MeshIsValid()
    ensures ValidMesh(MESH) && PassesGate(MESH, REQUEST.minimumQuality)
  {
    assert Distinct(TEN_NODES) && Below(TEN_NODES, 11);
  }

  lemma LastNodeUnused()
    ensures !UsesAllNodes(MESH)
  {
    assert 10 !in NodesOf(MESH.elements);
  }

  lemma RequestIsComposable()
    ensures Composable(REQUEST, MESHED) && HasVolumes(REQUEST) && AllPassGateWhenMapped()
  {
    MeshIsValid();
    MeshIsSupplied();
  }

  ghost predicate AllPassGateWhenMapped() {
    && MappingAccepted(REQUEST, MESHED) && Supplies(REQUEST, Supplied(MESHED))
    && AllPassGate(REQUEST, Supplied(MESHED))
  }

  lemma RequestIsComposed() returns (o: Composed)
    ensures Composable(REQUEST, MESHED) && Compose(REQUEST, MESHED) == Success(o)
    ensures SharedInOrder(REQUEST.interactions) == []
  {
    RequestIsComposable();
    MeshIsSupplied();
    o := AppendDomain(EMPTY_MODEL, DOMAIN, MESH);
    assert ComposeFirst(REQUEST, Supplied(MESHED), 0) == Success(EMPTY_MODEL);
    assert ComposeFirst(REQUEST, Supplied(MESHED), 1) == Success(o);
  }

  /** The mesh passed its gates, the request is composed, and the model is refused. */
  lemma ComposedAndRefused() returns (o: Composed)
    ensures Composable(REQUEST, MESHED) && AllPassGateWhenMapped() && Compose(REQUEST, MESHED) == Success(o)
    ensures Refusal(o, QualityOf(REQUEST, MESHED, o), DomainsById(REQUEST.domains)) ==
      Some(ModelError.DomainMappingInvalid)
  {
    RequestIsComposable();
    MeshIsSupplied();
    LastNodeUnused();
    o := RequestIsComposed();
    AcceptedExactly(REQUEST, MESHED, o);
  }
}
