/** The admitted plates in figures: where the faces are, how large they are, and which
    faces and edges list each other, whatever order the checks run in. */
module PlateLaws {
  import opened Wrappers
  import opened Ascending
  import opened FemModel
  import opened TetraGeometry
  import opened PlateTopology

  predicate Around(a: real, c: real, gap: real) {
    c - gap <= a <= c + gap
  }

  predicate AroundPoint(p: Vec3, x: real, y: real, z: real, gap: Vec3) {
    Around(p.x, x, gap.x) && Around(p.y, y, gap.y) && Around(p.z, z, gap.z)
  }

  const SMALL := Vec3(0.000001, 0.000001, 0.000001)
  const LONG := Vec3(0.000001, 0.000002, 0.000001)

  // ---------------------------------------------------------------- extent and sides

  /** The body in figures: a box of 100 by 400 by 1 about the origin. */
  lemma BodyExactly(b: Body)
    ensures BodyChecked(b) <==>
      && b.isValid && b.isSolid && b.closed && b.manifold && b.solidCount == b.componentCount == 1
      && b.faceCount == |b.faces| == |b.exactFaces| == 6 && |b.edges| == 12
      && AroundPoint(b.lowCorner, -50.0, -200.0, -0.5, LONG) && AroundPoint(b.highCorner, 50.0, 200.0, 0.5, LONG)
      && Around(b.volume, 40000.0, 0.0004) && Around(b.surfaceArea, 81000.0, 0.00081)
  {
    TolerancesInFigures();
  }

  lemma TolerancesInFigures()
    ensures Tolerance(0.0) == Tolerance(1.0) == Tolerance(0.5) == Tolerance(-0.5) == 0.000001
    ensures Tolerance(50.0) == Tolerance(-50.0) == Tolerance(100.0) == 0.000001
    ensures Tolerance(200.0) == Tolerance(-200.0) == 0.000002
    ensures Tolerance(400.0) == 0.000004 && Tolerance(40000.0) == 0.0004 && Tolerance(81000.0) == 0.00081
  {
  }

  /** The sides in order: left and right, bottom and top, back and front. */
  predicate OnSide(face: Face, s: nat) {
    var c, a := face.centroid, face.measure;
    || (s == 0 && AroundPoint(c, -50.0, 0.0, 0.0, SMALL) && Around(a, 400.0, 0.000004))
    || (s == 1 && AroundPoint(c, 50.0, 0.0, 0.0, SMALL) && Around(a, 400.0, 0.000004))
    || (s == 2 && AroundPoint(c, 0.0, -200.0, 0.0, LONG) && Around(a, 100.0, 0.000001))
    || (s == 3 && AroundPoint(c, 0.0, 200.0, 0.0, LONG) && Around(a, 100.0, 0.000001))
    || (s == 4 && AroundPoint(c, 0.0, 0.0, -0.5, SMALL) && Around(a, 40000.0, 0.0004))
    || (s == 5 && AroundPoint(c, 0.0, 0.0, 0.5, SMALL) && Around(a, 40000.0, 0.0004))
  }

  lemma SideExactly(face: Face, s: nat)
    requires s < 6
    ensures Matches(face, EXPECTED[s]) <==> OnSide(face, s)
  {
    TolerancesInFigures();
  }

  lemma OneSideOnly(face: Face, s: nat, k: nat)
    requires OnSide(face, s) && OnSide(face, k)
    ensures s == k
  {
  }

  /** A face is taken for the side it is on, and for none if it is on none. */
  lemma {:induction false} FoundSide(face: Face, k: nat)
    requires k <= 6
    ensures FindSignature(face, k).Some? ==> OnSide(face, FindSignature(face, k).value)
    ensures FindSignature(face, k).None? ==> forall s :: k <= s < 6 ==> !OnSide(face, s)
    decreases 6 - k
  {
    if k < 6 {
      SideExactly(face, k);
      FoundSide(face, k + 1);
    }
  }

  // ---------------------------------------------------------------- the six sides

  /** Every side is there once. */
  ghost predicate SixSides(faces: seq<Face>) {
    forall s :: 0 <= s < 6 ==> SideThere(faces, s)
  }

  ghost predicate SideThere(faces: seq<Face>, s: nat) {
    exists i :: 0 <= i < |faces| && OnSide(faces[i], s)
  }

  lemma ThereOnce(faces: seq<Face>, i: nat, j: nat)
    requires |faces| == 6 && SixSides(faces) && i < j < 6
    ensures exists s, u :: 0 <= s < 6 && 0 <= u < 6 && s != u && OnSide(faces[i], s) && OnSide(faces[j], u)
  {
    var at := seq(6, s requires 0 <= s < 6 => Place(faces, s));
    forall s, u | 0 <= s < u < 6 ensures at[s] != at[u] {
      if at[s] == at[u] {
        OneSideOnly(faces[at[s]], s, u);
      }
    }
    SixOfSix(at, i);
    SixOfSix(at, j);
    var s :| 0 <= s < 6 && at[s] == i;
    var u :| 0 <= u < 6 && at[u] == j;
    assert OnSide(faces[i], s) && OnSide(faces[j], u);
  }

  ghost function Place(faces: seq<Face>, s: nat): (i: int)
    requires SideThere(faces, s)
    ensures 0 <= i < |faces| && OnSide(faces[i], s)
  {
    var i :| 0 <= i < |faces| && OnSide(faces[i], s);
    i
  }

  lemma FoundOnSide(face: Face, s: nat)
    requires s < 6 && OnSide(face, s)
    ensures FindSignature(face, 0) == Some(s)
  {
    FoundSide(face, 0);
    var k := FindSignature(face, 0).value;
    OneSideOnly(face, s, k);
  }

  lemma SidesAreFound(faces: seq<Face>)
    requires |faces| == 6 && FacesChecked(faces)
    ensures SixSides(faces)
  {
    forall s | 0 <= s < 6 ensures SideThere(faces, s) {
      SignaturesBijective(faces, s);
      var i :| 0 <= i < 6 && Sides(faces)[i] == s && Matches(faces[i], EXPECTED[s]);
      SideExactly(faces[i], s);
    }
  }

  /** The face loop passes exactly the six sides, in any order, of four edges each. */
  lemma FacesExactly(faces: seq<Face>)
    requires |faces| == 6
    ensures FacesChecked(faces) <==> SixSides(faces) && forall i :: 0 <= i < 6 ==> |faces[i].edgeIndices| == 4
  {
    if FacesChecked(faces) {
      SidesAreFound(faces);
      forall i | 0 <= i < 6 ensures |faces[i].edgeIndices| == 4 {
        assert FaceChecked(faces, i);
      }
    }
    if SixSides(faces) && forall i :: 0 <= i < 6 ==> |faces[i].edgeIndices| == 4 {
      forall i | 0 <= i < 6 ensures FaceChecked(faces, i) {
        FaceFound(faces, i);
      }
    }
  }

  lemma FaceFound(faces: seq<Face>, i: nat)
    requires |faces| == 6 && SixSides(faces) && i < 6 && |faces[i].edgeIndices| == 4
    ensures FaceChecked(faces, i)
  {
    var found := Signatures(faces);
    forall k | 0 <= k < 6 && k != i ensures found[k].Some? && found[i].Some? && found[k] != found[i] {
      if k < i {
        ThereOnce(faces, k, i);
        var s, u :| 0 <= s < 6 && 0 <= u < 6 && s != u && OnSide(faces[k], s) && OnSide(faces[i], u);
        FoundOnSide(faces[k], s);
        FoundOnSide(faces[i], u);
      } else {
        ThereOnce(faces, i, k);
        var s, u :| 0 <= s < 6 && 0 <= u < 6 && s != u && OnSide(faces[i], s) && OnSide(faces[k], u);
        FoundOnSide(faces[i], s);
        FoundOnSide(faces[k], u);
      }
    }
    assert found[if i == 0 then 1 else 0].Some?;
    assert found[i].Some?;
  }

  // ---------------------------------------------------------------- incidence

  /** A face and an edge list each other or neither does. */
  ghost predicate Mutual(faces: seq<Face>, edges: seq<Edge>) {
    forall i, j :: 0 <= i < |faces| && 0 <= j < |edges| ==>
      (edges[j].index in faces[i].edgeIndices <==> i + 1 in edges[j].faceIndices)
  }

  ghost predicate KnownEdges(faces: seq<Face>, edges: seq<Edge>) {
    forall i, k :: 0 <= i < |faces| && 0 <= k < |faces[i].edgeIndices| ==> Known(edges, faces[i].edgeIndices[k])
  }

  ghost predicate Known(edges: seq<Edge>, index: int) {
    exists j :: 0 <= j < |edges| && edges[j].index == index
  }

  /** Every edge has a number of its own and lies on two of the six faces. */
  ghost predicate TwoFacesEach(edges: seq<Edge>) {
    && (forall j :: 0 <= j < |edges| ==> edges[j].index >= 1 && |edges[j].faceIndices| == 2)
    && (forall j :: 0 <= j < |edges| ==> Distinct(edges[j].faceIndices))
    && (forall j, n :: 0 <= j < |edges| && n in edges[j].faceIndices ==> n in {1, 2, 3, 4, 5, 6})
    && (forall i, j :: 0 <= i < |edges| && 0 <= j < |edges| && edges[i].index == edges[j].index ==> i == j)
  }

  lemma EdgesExactly(edges: seq<Edge>)
    ensures EdgesChecked(edges) <==> TwoFacesEach(edges)
  {
    if EdgesChecked(edges) {
      forall j, n | 0 <= j < |edges| && n in edges[j].faceIndices ensures n in {1, 2, 3, 4, 5, 6} {
        assert EdgeChecked(edges[j]);
      }
      forall i, j | 0 <= i < |edges| && 0 <= j < |edges| && edges[i].index == edges[j].index ensures i == j {
        assert !(i < j) && !(j < i);
      }
    }
    if TwoFacesEach(edges) {
      forall j | 0 <= j < |edges| ensures EdgeChecked(edges[j]) {
        assert edges[j].faceIndices[0] in edges[j].faceIndices && edges[j].faceIndices[1] in edges[j].faceIndices;
      }
    }
  }

  /** The incidence loop passes a plate exactly if every face lists different, existing
      edges and all faces and edges list each other. */
  lemma IncidenceExactly(faces: seq<Face>, edges: seq<Edge>)
    requires |faces| == 6 && |edges| == 12 && FacesChecked(faces) && EdgesChecked(edges)
    ensures IncidenceChecked(faces, edges) <==>
      && (forall i :: 0 <= i < 6 ==> Distinct(faces[i].edgeIndices)) && KnownEdges(faces, edges)
      && Mutual(faces, edges)
  {
    if IncidenceChecked(faces, edges) {
      forall i, k | 0 <= i < 6 && 0 <= k < |faces[i].edgeIndices| ensures Known(edges, faces[i].edgeIndices[k]) {
        assert AllListedBack(edges, faces[i].edgeIndices, i + 1);
        assert ListedBack(edges, faces[i].edgeIndices[k], i + 1);
        FoundEdge(edges, faces[i].edgeIndices[k]);
      }
      forall i, j | 0 <= i < 6 && 0 <= j < 12
        ensures edges[j].index in faces[i].edgeIndices <==> i + 1 in edges[j].faceIndices
      {
        Reciprocal(faces, edges, i, j);
      }
    }
    if (forall i :: 0 <= i < 6 ==> Distinct(faces[i].edgeIndices)) && KnownEdges(faces, edges) && Mutual(faces, edges) {
      forall i, k | 0 <= i < 6 && 0 <= k < |faces[i].edgeIndices|
        ensures ListedBack(edges, faces[i].edgeIndices[k], i + 1)
      {
        assert Known(edges, faces[i].edgeIndices[k]);
        var j :| 0 <= j < 12 && edges[j].index == faces[i].edgeIndices[k];
        FindEdgeFrom(edges, j, 0);
      }
    }
  }

  /** The topology that is admitted: the six sides of the box in any order, four edges to
      a face, twelve edges on two faces each, and all of them listing each other. */
  lemma AdmittedExactly(faces: seq<Face>, edges: seq<Edge>)
    ensures Admitted(faces, edges) <==>
      && |faces| == 6 && |edges| == 12 && SixSides(faces) && TwoFacesEach(edges)
      && (forall i :: 0 <= i < 6 ==> |faces[i].edgeIndices| == 4 && Distinct(faces[i].edgeIndices))
      && KnownEdges(faces, edges) && Mutual(faces, edges)
  {
    if |faces| == 6 && |edges| == 12 {
      FacesExactly(faces);
      EdgesExactly(edges);
      if FacesChecked(faces) && EdgesChecked(edges) {
        IncidenceExactly(faces, edges);
      }
    }
  }

  // ---------------------------------------------------------------- the planes

  /** Centred up to a tenth of the tolerance along the axes before that of the side. */
  ghost predicate Upright(c: Vec3, s: nat) {
    && (s >= 2 ==> Around(c.x, 0.0, 0.0000001))
    && (s >= 4 ==> Around(c.y, 0.0, 0.0000001))
  }

  /** The plane of a well centred side is passed exactly if it is an exact one across the
      side's own axis, and through the centre up to a millionth, or a hundred-millionth of
      the distance. */
  lemma PlaneExactly(d: ExactFace, face: Face, s: nat)
    requires s < 6 && OnSide(face, s) && Upright(face.centroid, s)
    ensures PlaneChecked(d, face.centroid) <==>
      && d.isFace && d.exact && d.plane && d.direction.Some? && d.origin.Some?
      && var along, at, c := Coordinate(d.direction.value, s / 2), Coordinate(d.origin.value, s / 2),
           Coordinate(face.centroid, s / 2);
         && (Around(along, 1.0, 0.000001) || Around(along, -1.0, 0.000001))
         && (Around(at, c, 0.000001) || Around(at, c, c / 100000000.0) || Around(at, c, -c / 100000000.0))
  {
    TolerancesInFigures();
    SideExactly(face, s);
    AxisOfSide(face, s);
    assert forall k :: 0 <= k < s / 2 ==> Abs(Coordinate(face.centroid, k)) <= 0.0000001;
  }
}
