/** The meshing of a whole request: the local meshes composed, and the model
    validated before it is handed on. */
module MeshProvider {
  import opened Wrappers
  import opened SharedTopology
  import opened Composition
  import opened ComposedModel
  import opened Quality
  import opened ModelComposer
  import opened ModelValidation

  datatype MeshError = NotComposed(error: ComposeError) | NotAccepted(refusal: ModelError)

  method IndexDomains(domains: seq<Domain>) returns (byId: map<string, Domain>)
    ensures byId == DomainsById(domains)
  {
    byId := map[];
    for d := 0 to |domains|
      invariant byId == DomainsById(domains[..d])
    {
      byId := byId[domains[d].domainId := domains[d]];
      assert domains[..d + 1][..d] == domains[..d];
    }
    assert domains[..|domains|] == domains;
  }

  /** Every local mesh has passed its own validation. What composes is handed on
      exactly if interfaces were welded or no mesh has an unused node; otherwise
      the validation refuses it for the mapping of its domains. */
  method MeshRequest(request: Request, meshed: seq<MeshedDomain>) returns (r: Result<MeasuredModel, MeshError>)
    requires Composable(request, meshed) && request.domains != [] && HasVolumes(request)
    requires MappingAccepted(request, meshed) ==> AllPassGate(request, Supplied(meshed))
    ensures Compose(request, meshed).Failure? ==> r == Failure(NotComposed(Compose(request, meshed).error))
    ensures Compose(request, meshed).Success? ==>
      var o := Compose(request, meshed).value;
      r == if SharedInOrder(request.interactions) != [] || AllNodesUsed(request, Supplied(meshed)) then
        Success(MeasuredModel(o, QualityOf(request, meshed, o)))
      else
        Failure(NotAccepted(ModelError.DomainMappingInvalid))
  {
    var composed := ComposeModel(request, meshed);
    match composed {
      case Failure(error) => return Failure(NotComposed(error));
      case Success(measured) =>
        AcceptedExactly(request, meshed, measured.model);
        var domains := IndexDomains(request.domains);
        var refusal := Validate(measured.model, measured.quality, domains);
        if refusal.Some? {
          return Failure(NotAccepted(refusal.value));
        }
        return Success(measured);
    }
  }
}
