/** The tail of the weld: connectivity rewritten onto the surviving nodes, the
    nodes no element uses dropped, and the survivors renumbered in order. */
module Compaction {
  import opened Ascending
  import opened FemModel
  import opened InterfaceWeld
  import opened WeldSoundness

  ghost predicate AllIn(entries: seq<seq<nat>>, used: set<nat>) {
    forall e, i :: 0 <= e < |entries| && 0 <= i < |entries[e]| ==> entries[e][i] in used
  }

  function RenumberEntry(used: set<nat>, entry: seq<nat>): (r: seq<nat>)
    requires forall i :: 0 <= i < |entry| ==> entry[i] in used
    ensures |r| == |entry|
  {
    seq(|entry|, i requires 0 <= i < |entry| => Rank(used, entry[i]))
  }

  /** Node numbers replaced by their position among the used ones. */
  function Renumber(used: set<nat>, entries: seq<seq<nat>>): (r: seq<seq<nat>>)
    requires AllIn(entries, used)
    ensures |r| == |entries|
  {
    seq(|entries|, e requires 0 <= e < |entries| => RenumberEntry(used, entries[e]))
  }

  function Pick<T>(s: seq<T>, indices: seq<nat>): (r: seq<T>)
    requires Below(indices, |s|)
    ensures |r| == |indices|
  {
    seq(|indices|, i requires 0 <= i < |indices| => s[indices[i]])
  }

  ghost predicate RegionsInRange(regions: seq<DomainRegion>, elementCount: nat) {
    forall d :: 0 <= d < |regions| ==> Below(regions[d].elementIndices, elementCount)
  }

  /** The model can be renumbered: element nodes exist, and every facet is
      carried by elements. */
  ghost predicate Renumberable(m: Composed) {
    && (forall n :: n in NodesOf(m.elements) ==> n < |m.nodes|)
    && AllIn(m.facets, NodesOf(m.elements))
    && RegionsInRange(m.domainRegions, |m.elements|)
  }

  function Rewritten(m: Composed, weld: map<nat, nat>): Composed {
    m.(elements := Rewrite(weld, m.elements), facets := Rewrite(weld, m.facets))
  }

  ghost predicate Compactable(m: Composed, weld: map<nat, nat>) {
    Renumberable(Rewritten(m, weld))
  }

  lemma OwnNodes(entries: seq<seq<nat>>)
    ensures AllIn(entries, NodesOf(entries))
  {
    forall e, i | 0 <= e < |entries| && 0 <= i < |entries[e]| ensures entries[e][i] in NodesOf(entries) {
      NodeOfEntry(entries, e, i);
    }
  }

  /** Each domain lists, in order, the nodes its elements use. */
  function Relist(regions: seq<DomainRegion>, elements: seq<seq<nat>>): (r: seq<DomainRegion>)
    requires RegionsInRange(regions, |elements|)
    ensures |r| == |regions|
  {
    seq(|regions|, d requires 0 <= d < |regions| =>
      regions[d].(nodeIndices := Sorted(NodesOf(Pick(elements, regions[d].elementIndices)))))
  }

  /** Unused nodes dropped and the others numbered in order. */
  function Renumbered(m: Composed): Composed
    requires Renumberable(m)
  {
    var used := NodesOf(m.elements);
    OwnNodes(m.elements);
    SortedIsSet(used);
    var elements := Renumber(used, m.elements);
    m.(nodes := Pick(m.nodes, Sorted(used)),
       elements := elements,
       facets := Renumber(used, m.facets),
       domainRegions := Relist(m.domainRegions, elements))
  }

  function Compacted(m: Composed, weld: map<nat, nat>): Composed
    requires Compactable(m, weld)
  {
    Renumbered(Rewritten(m, weld))
  }
}
