/** The values a composed multi-domain mesh is made of. Coordinates and
    tolerances are exact reals; node, element and facet numbers are indices. */
module FemModel {

  type Facet = seq<nat>

  datatype Vec3 = Vec3(x: real, y: real, z: real) {
    function Minus(o: Vec3): Vec3 {
      Vec3(x - o.x, y - o.y, z - o.z)
    }

    function Dot(o: Vec3): real {
      x * o.x + y * o.y + z * o.z
    }

    function Cross(o: Vec3): Vec3 {
      Vec3(y * o.z - z * o.y, z * o.x - x * o.z, x * o.y - y * o.x)
    }
  }

  /** `distance(a, b) <= tolerance`, without the square root. */
  predicate Within(a: Vec3, b: Vec3, tolerance: real) {
    tolerance >= 0.0 && a.Minus(b).Dot(a.Minus(b)) <= tolerance * tolerance
  }

  datatype BoundaryRegion = BoundaryRegion(
    domainId: string, semanticReferenceIds: seq<string>, facetIndices: seq<nat>)

  datatype DomainRegion = DomainRegion(
    domainId: string, elementIndices: seq<nat>, nodeIndices: seq<nat>)

  /** Interactions other than shared topology play no part in the composition. */
  datatype Interaction =
    | SharedTopology(id: string, secondaryReferenceIds: seq<string>,
                     primaryReferenceIds: seq<string>, positionTolerance: real)
    | OtherInteraction(id: string)

  /** The shared arrays that the per-domain loop fills and the weld rewrites. */
  datatype Composed = Composed(
    nodes: seq<Vec3>,
    elements: seq<seq<nat>>, elementDomainIds: seq<string>,
    facets: seq<Facet>, facetDomainIds: seq<string>,
    boundaryRegions: seq<BoundaryRegion>, domainRegions: seq<DomainRegion>)

  function NodesOf(entries: seq<seq<nat>>): set<nat> {
    set e, n | e in entries && n in e :: n
  }

  lemma NodeOfEntry(entries: seq<seq<nat>>, i: nat, j: nat)
    requires i < |entries| && j < |entries[i]|
    ensures entries[i][j] in NodesOf(entries)
  {
    assert entries[i] in entries && entries[i][j] in entries[i];
  }

  lemma EntryOfNode(entries: seq<seq<nat>>, n: nat) returns (i: nat, j: nat)
    requires n in NodesOf(entries)
    ensures i < |entries| && j < |entries[i]| && entries[i][j] == n
  {
    var e :| e in entries && n in e;
    i :| i < |entries| && entries[i] == e;
    j :| j < |e| && e[j] == n;
  }

  predicate Below(entry: seq<nat>, bound: nat) {
    forall i :: 0 <= i < |entry| ==> entry[i] < bound
  }

  /** Every node of the entry is a node of the given domain. */
  ghost predicate Homed(home: seq<string>, entry: seq<nat>, domainId: string) {
    forall j :: 0 <= j < |entry| ==> entry[j] < |home| && home[entry[j]] == domainId
  }
}
