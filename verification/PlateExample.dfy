/** Two plates that are admitted: the nominal one, and one whose upper side comes
    with a plane across the wrong axis. */
module PlateExample {
  import opened Wrappers
  import opened FemModel
  import opened PlateTopology

  /** Which edges each side has; two sides share the edge listed by both. */
  const EDGES_OF: seq<seq<int>> := [
    [1, 2, 3, 4], [5, 6, 7, 8], [1, 5, 9, 10], [2, 6, 11, 12], [3, 7, 9, 11], [4, 8, 10, 12]]

  const EDGES: seq<Edge> := [
    Edge(1, [1, 3]), Edge(2, [1, 4]), Edge(3, [1, 5]), Edge(4, [1, 6]), Edge(5, [2, 3]), Edge(6, [2, 4]),
    Edge(7, [2, 5]), Edge(8, [2, 6]), Edge(9, [3, 5]), Edge(10, [3, 6]), Edge(11, [4, 5]), Edge(12, [4, 6])]

  function SideFace(s: nat): Face
    requires s < 6
  {
    Face(EXPECTED[s].centroid, EXPECTED[s].measure, EDGES_OF[s])
  }

  function Unit(axis: nat): Vec3 {
    Vec3(if axis == 0 then 1.0 else 0.0, if axis == 1 then 1.0 else 0.0, if axis == 2 then 1.0 else 0.0)
  }

  function SidePlane(s: nat): ExactFace
    requires s < 6
  {
    ExactFace(true, true, true, Some(Unit(s / 2)), Some(EXPECTED[s].centroid))
  }

  function SideFaces(): (r: seq<Face>)
    ensures |r| == 6
  {
    seq(6, s requires 0 <= s < 6 => SideFace(s))
  }

  function SidePlanes(): (r: seq<ExactFace>)
    ensures |r| == 6
  {
    seq(6, s requires 0 <= s < 6 => SidePlane(s))
  }

  function Plate(): Body {
    Body(true, true, 1, 1, true, true, 6, SideFaces(), EDGES, SidePlanes(),
         Vec3(-50.0, -200.0, -0.5), Vec3(50.0, 200.0, 0.5), 40000.0, 81000.0)
  }

  lemma NearItself(p: Vec3, measure: real)
    ensures NearPoint(p, p) && Near(measure, measure)
  {
  }

  /** No two sides have centroids near each other. */
  lemma SidesDiffer(s: nat, k: nat)
    requires s < 6 && k < 6 && s != k
    ensures !NearPoint(EXPECTED[s].centroid, EXPECTED[k].centroid)
  {
  }

  lemma {:induction false} OwnSignature(s: nat, k: nat)
    requires k <= s < 6
    ensures FindSignature(SideFace(s), k) == Some(s)
    decreases s - k
  {
    if k < s {
      SidesDiffer(s, k);
      OwnSignature(s, k + 1);
    } else {
      NearItself(EXPECTED[s].centroid, EXPECTED[s].measure);
    }
  }

  lemma FacesPass()
    ensures FacesChecked(SideFaces())
  {
    var faces := SideFaces();
    forall i | 0 <= i < 6 ensures FaceChecked(faces, i) {
      OwnSignature(i, 0);
      forall k | 0 <= k < i ensures Signatures(faces)[k] == Some(k) {
        OwnSignature(k, 0);
      }
    }
  }

  lemma EdgePasses(j: nat)
    requires j < 12
    ensures EDGES[j].index == j + 1 && EdgeChecked(EDGES[j])
  {
  }

  lemma EdgesPass()
    ensures EdgesChecked(EDGES)
  {
    forall j | 0 <= j < 12 ensures EDGES[j].index == j + 1 && EdgeChecked(EDGES[j]) {
      EdgePasses(j);
    }
  }

  lemma {:induction false} EdgeFound(index: nat, k: nat)
    requires 1 <= index <= 12 && k < index
    ensures FindEdge(EDGES, index, k) == Some(index - 1)
    decreases index - k
  {
    if k + 1 < index {
      EdgeFound(index, k + 1);
    }
  }

  lemma SideListedBack(s: nat)
    requires s < 6
    ensures AllListedBack(EDGES, EDGES_OF[s], s + 1)
  {
    var indices := EDGES_OF[s];
    forall k | 0 <= k < 4 ensures ListedBack(EDGES, indices[k], s + 1) {
      EdgeFound(indices[k], 0);
      EdgeListsSide(s, k);
    }
  }

  lemma EdgeListsSide(s: nat, k: nat)
    requires s < 6 && k < 4
    ensures s + 1 in EDGES[EDGES_OF[s][k] - 1].faceIndices
  {
    var edge := EDGES[EDGES_OF[s][k] - 1];
    assert edge.faceIndices[0] == s + 1 || edge.faceIndices[1] == s + 1;
  }

  lemma PlanesPass()
    ensures PlanesChecked(SideFaces(), SidePlanes())
  {
    forall s | 0 <= s < 6 ensures PlaneChecked(SidePlane(s), SideFace(s).centroid) {
      var c := EXPECTED[s].centroid;
      NearItself(c, EXPECTED[s].measure);
      AxisOfSide(SideFace(s), s);
    }
  }

  /** The nominal plate meets everything that is asked of a plate. */
  lemma PlateIsAdmitted()
    ensures AdmittedPlate(Plate())
  {
    var b := Plate();
    FacesPass();
    EdgesPass();
    PlanesPass();
    NearItself(b.lowCorner, b.volume);
    NearItself(b.highCorner, b.surfaceArea);
    forall i | 0 <= i < 6 ensures AllListedBack(b.edges, b.faces[i].edgeIndices, i + 1) {
      SideListedBack(i);
    }
  }

  // ---------------------------------------------------------------- a plane across the wrong axis

  /** The centre of the upper side, half a tolerance off along the first axis. */
  const SKEW_CENTRE := Vec3(0.0000005, 0.0, 0.5)

  const SKEW_FACE := Face(SKEW_CENTRE, 40000.0, EDGES_OF[5])

  const SKEW_PLANE := ExactFace(true, true, true, Some(Unit(0)), Some(SKEW_CENTRE))

  function SkewPlate(): Body {
    Plate().(faces := SideFaces()[5 := SKEW_FACE], exactFaces := SidePlanes()[5 := SKEW_PLANE])
  }

  lemma {:induction false} SkewSignature(k: nat)
    requires k <= 5
    ensures FindSignature(SKEW_FACE, k) == Some(5)
    decreases 5 - k
  {
    if k < 5 {
      SkewDiffers(k);
      SkewSignature(k + 1);
    } else {
      SkewMatches();
    }
  }

  lemma SkewDiffers(k: nat)
    requires k < 5
    ensures !NearPoint(SKEW_CENTRE, EXPECTED[k].centroid)
  {
    if k < 4 {
      assert EXPECTED[k].centroid.z == 0.0;
    } else {
      assert EXPECTED[k].centroid.z == -0.5;
    }
  }

  lemma SkewMatches()
    ensures Matches(SKEW_FACE, EXPECTED[5])
  {
    NearItself(SKEW_CENTRE, 40000.0);
  }

  lemma SkewFacesPass()
    ensures FacesChecked(SkewPlate().faces)
  {
    var faces := SkewPlate().faces;
    forall i | 0 <= i < 6 ensures Signatures(faces)[i] == Some(i) && |faces[i].edgeIndices| == 4 {
      SkewSignature(0);
      OwnSignature(i, 0);
    }
  }

  lemma SkewPlanesPass()
    ensures PlanesChecked(SkewPlate().faces, SkewPlate().exactFaces)
  {
    PlanesPass();
    var b := SkewPlate();
    NearItself(SKEW_CENTRE, 40000.0);
    NearItself(Vec3(1.0, 0.0, 0.0), 1.0);
    assert Axis(SKEW_CENTRE, 0) == Some(0);
    forall i | 0 <= i < 6 ensures PlaneChecked(b.exactFaces[i], b.faces[i].centroid) {
      if i < 5 {
        assert PlaneChecked(SidePlanes()[i], SideFaces()[i].centroid);
      }
    }
  }

  /** A plate is admitted although the exact plane of its upper side is an upright
      one, across the first axis. */
  lemma UprightPlaneAdmitted()
    ensures AdmittedPlate(SkewPlate()) && Sides(SkewPlate().faces)[5] == 5
    ensures SkewPlate().exactFaces[5].direction == Some(Vec3(1.0, 0.0, 0.0))
  {
    var b := SkewPlate();
    PlateIsAdmitted();
    SkewFacesPass();
    SkewPlanesPass();
    SkewSignature(0);
    forall i | 0 <= i < 6 ensures AllListedBack(b.edges, b.faces[i].edgeIndices, i + 1) {
      SideListedBack(i);
    }
  }
}
