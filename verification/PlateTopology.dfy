/** Admission of the rectangular plate that carries a stationary crack: six
    recognised faces, twelve edges, and an incidence that is checked in one
    direction only. */
module PlateTopology {
  import opened Wrappers
  import opened Ascending
  import opened FemModel
  import opened TetraGeometry

  datatype Face = Face(centroid: Vec3, measure: real, edgeIndices: seq<int>)

  datatype Edge = Edge(index: int, faceIndices: seq<int>)

  /** A face as the exact kernel describes it: a frame has an axis and may have an origin. */
  datatype ExactFace = ExactFace(isFace: bool, exact: bool, plane: bool, direction: Option<Vec3>, origin: Option<Vec3>)

  /** What the CAD reader observes of a body. */
  datatype Body = Body(
    isValid: bool, isSolid: bool, solidCount: int, componentCount: int, closed: bool, manifold: bool, faceCount: int,
    faces: seq<Face>, edges: seq<Edge>, exactFaces: seq<ExactFace>,
    lowCorner: Vec3, highCorner: Vec3, volume: real, surfaceArea: real)

  datatype Signature = Signature(centroid: Vec3, measure: real)

  const EXPECTED: seq<Signature> := [
    Signature(Vec3(-50.0, 0.0, 0.0), 400.0), Signature(Vec3(50.0, 0.0, 0.0), 400.0),
    Signature(Vec3(0.0, -200.0, 0.0), 100.0), Signature(Vec3(0.0, 200.0, 0.0), 100.0),
    Signature(Vec3(0.0, 0.0, -0.5), 40000.0), Signature(Vec3(0.0, 0.0, 0.5), 40000.0)]

  function Tolerance(c: real): real {
    var scaled := Abs(c) * 0.00000001;
    if scaled > 0.000001 then scaled else 0.000001
  }

  predicate Near(a: real, c: real) {
    Abs(a - c) <= Tolerance(c)
  }

  predicate NearPoint(p: Vec3, q: Vec3) {
    Near(p.x, q.x) && Near(p.y, q.y) && Near(p.z, q.z)
  }

  predicate Matches(face: Face, s: Signature) {
    NearPoint(face.centroid, s.centroid) && Near(face.measure, s.measure)
  }

  function Coordinate(p: Vec3, axis: nat): real
    requires axis < 3
  {
    if axis == 0 then p.x else if axis == 1 then p.y else p.z
  }

  /** The first coordinate from `k` on that counts as different from zero. */
  function Axis(p: Vec3, k: nat): (r: Option<nat>)
    requires k <= 3
    ensures r.Some? ==> k <= r.value < 3
    decreases 3 - k
  {
    if k == 3 then None
    else if Abs(Coordinate(p, k)) > 0.0000001 then Some(k)
    else Axis(p, k + 1)
  }

  /** The first expected signature from `k` on that the face matches. */
  function FindSignature(face: Face, k: nat): (r: Option<nat>)
    requires k <= 6
    ensures r.Some? ==> k <= r.value < 6 && Matches(face, EXPECTED[r.value])
    decreases 6 - k
  {
    if k == 6 then None
    else if Matches(face, EXPECTED[k]) then Some(k)
    else FindSignature(face, k + 1)
  }

  /** The first edge from `k` on with the given index. */
  function FindEdge(edges: seq<Edge>, index: int, k: nat): (r: Option<nat>)
    requires k <= |edges|
    ensures r.Some? ==> k <= r.value < |edges| && edges[r.value].index == index
    decreases |edges| - k
  {
    if k == |edges| then None
    else if edges[k].index == index then Some(k)
    else FindEdge(edges, index, k + 1)
  }

  // ---------------------------------------------------------------- the checks

  function Signatures(faces: seq<Face>): (r: seq<Option<nat>>)
    ensures |r| == |faces|
  {
    seq(|faces|, i requires 0 <= i < |faces| => FindSignature(faces[i], 0))
  }

  /** The face is recognised, no earlier face is recognised as the same side,
      and it has four edges. */
  ghost predicate FaceChecked(faces: seq<Face>, i: nat)
    requires i < |faces|
  {
    var found := Signatures(faces);
    found[i].Some? && found[i] !in found[..i] && |faces[i].edgeIndices| == 4
  }

  ghost predicate FacesChecked(faces: seq<Face>) {
    forall i :: 0 <= i < |faces| ==> FaceChecked(faces, i)
  }

  ghost predicate EdgeChecked(edge: Edge) {
    && edge.index > 0 && |edge.faceIndices| == 2 && edge.faceIndices[0] != edge.faceIndices[1]
    && 1 <= edge.faceIndices[0] <= 6 && 1 <= edge.faceIndices[1] <= 6
  }

  ghost predicate EdgesChecked(edges: seq<Edge>) {
    && (forall j :: 0 <= j < |edges| ==> EdgeChecked(edges[j]))
    && (forall i, j :: 0 <= i < j < |edges| ==> edges[i].index != edges[j].index)
  }

  ghost predicate ListedBack(edges: seq<Edge>, index: int, face: int) {
    FindEdge(edges, index, 0).Some? && face in edges[FindEdge(edges, index, 0).value].faceIndices
  }

  /** The face lists different edges, each of which lists the face. */
  ghost predicate AllListedBack(edges: seq<Edge>, indices: seq<int>, face: int) {
    Distinct(indices) && forall k :: 0 <= k < |indices| ==> ListedBack(edges, indices[k], face)
  }

  ghost predicate IncidenceChecked(faces: seq<Face>, edges: seq<Edge>) {
    forall i :: 0 <= i < |faces| ==> AllListedBack(edges, faces[i].edgeIndices, i + 1)
  }

  /** An exact plane across the first axis along which the face is off centre,
      through the centre of the face. */
  predicate PlaneChecked(d: ExactFace, center: Vec3) {
    && d.isFace && d.exact && d.plane && d.direction.Some? && d.origin.Some? && Axis(center, 0).Some?
    && var axis := Axis(center, 0).value;
       && Near(Abs(Coordinate(d.direction.value, axis)), 1.0)
       && Near(Coordinate(d.origin.value, axis), Coordinate(center, axis))
  }

  predicate PlanesChecked(faces: seq<Face>, exactFaces: seq<ExactFace>)
    requires |exactFaces| == |faces|
  {
    forall i | 0 <= i < |faces| :: PlaneChecked(exactFaces[i], faces[i].centroid)
  }

  /** One valid closed solid of the right numbers, extent, volume and surface. */
  predicate BodyChecked(b: Body) {
    && b.isValid && b.isSolid && b.solidCount == 1 && b.componentCount == 1 && b.closed && b.manifold
    && b.faceCount == 6 && |b.faces| == 6 && |b.edges| == 12 && |b.exactFaces| == 6
    && NearPoint(b.lowCorner, Vec3(-50.0, -200.0, -0.5)) && NearPoint(b.highCorner, Vec3(50.0, 200.0, 0.5))
    && Near(b.volume, 40000.0) && Near(b.surfaceArea, 81000.0)
  }

  /** The plate as a whole. */
  ghost predicate AdmittedPlate(b: Body) {
    BodyChecked(b) && Admitted(b.faces, b.edges) && PlanesChecked(b.faces, b.exactFaces)
  }

  ghost predicate Admitted(faces: seq<Face>, edges: seq<Edge>) {
    |faces| == 6 && |edges| == 12 && FacesChecked(faces) && EdgesChecked(edges) && IncidenceChecked(faces, edges)
  }

  // ---------------------------------------------------------------- counting pairs

  /** All pairs of a row below `n` and a member of its set. */
  function Pairs(f: int -> set<int>, n: nat): set<(int, int)> {
    set i, j | 0 <= i < n && j in f(i) :: (i, j)
  }

  ghost function Row<A, B>(i: A, s: set<B>): set<(A, B)> {
    set j | j in s :: (i, j)
  }

  lemma {:induction false} RowSize<A, B>(i: A, s: set<B>)
    ensures |Row(i, s)| == |s|
  {
    if s == {} {
      assert Row(i, s) == {};
    } else {
      var x :| x in s;
      RowSize(i, s - {x});
      assert Row(i, s) == Row(i, s - {x}) + {(i, x)};
    }
  }

  lemma RowMember<A, B>(i: A, s: set<B>, p: (A, B))
    requires p in Row(i, s)
    ensures p.0 == i && p.1 in s
  {
  }

  lemma PairMember(f: int -> set<int>, n: nat, i: int, j: int)
    requires 0 <= i < n && j in f(i)
    ensures (i, j) in Pairs(f, n)
  {
  }

  lemma LastRow(f: int -> set<int>, n: nat)
    requires n > 0
    ensures |Pairs(f, n)| == |Pairs(f, n - 1)| + |f(n - 1)|
  {
    var before, row := Pairs(f, n - 1), Row(n - 1, f(n - 1));
    RowSize(n - 1, f(n - 1));
    forall p | p in Pairs(f, n) ensures p in before + row {
      assert p == (p.0, p.1);
      if p.0 == n - 1 {
        assert (n - 1, p.1) in row;
      }
    }
    forall p | p in row ensures p in Pairs(f, n) && p !in before {
      RowMember(n - 1, f(n - 1), p);
      PairMember(f, n, n - 1, p.1);
      assert p == (n - 1, p.1);
    }
    assert Pairs(f, n) == before + row;
  }

  lemma {:induction false} PairCount(f: int -> set<int>, n: nat, each: nat)
    requires forall i :: 0 <= i < n ==> |f(i)| == each
    ensures |Pairs(f, n)| == n * each
  {
    if n == 0 {
      assert Pairs(f, 0) == {};
    } else {
      PairCount(f, n - 1, each);
      LastRow(f, n);
    }
  }

  /** Positions of the edges a face lists. */
  function EdgesOf(faces: seq<Face>, edges: seq<Edge>): int -> set<int> {
    i => if 0 <= i < |faces| then set j | 0 <= j < |edges| && edges[j].index in faces[i].edgeIndices else {}
  }

  /** Positions of the faces an edge lists. */
  function FacesOf(edges: seq<Edge>): int -> set<int> {
    j => if 0 <= j < |edges| then set n | n in edges[j].faceIndices :: n - 1 else {}
  }

  lemma FoundEdge(edges: seq<Edge>, index: int)
    requires FindEdge(edges, index, 0).Some?
    ensures exists j :: 0 <= j < |edges| && edges[j].index == index
  {
  }

  /** A face lists four different edges, all of which exist. */
  lemma FourEdges(faces: seq<Face>, edges: seq<Edge>, i: nat)
    requires i < |faces| && EdgesChecked(edges) && |faces[i].edgeIndices| == 4
    requires AllListedBack(edges, faces[i].edgeIndices, i + 1)
    ensures |EdgesOf(faces, edges)(i)| == 4
  {
    var listed := set x | x in faces[i].edgeIndices;
    var positions := EdgesOf(faces, edges)(i);
    DistinctSize(faces[i].edgeIndices);
    forall x | x in listed ensures exists j :: j in positions && edges[j].index == x {
      var k :| 0 <= k < 4 && faces[i].edgeIndices[k] == x;
      FoundEdge(edges, x);
    }
    var index := (j: int) => if 0 <= j < |edges| then edges[j].index else 0;
    assert listed == set j | j in positions :: index(j);
    ImageSize(positions, listed, index);
  }

  lemma TwoFaces(edges: seq<Edge>, j: nat)
    requires j < |edges| && EdgeChecked(edges[j])
    ensures |FacesOf(edges)(j)| == 2
  {
    var a, b := edges[j].faceIndices[0], edges[j].faceIndices[1];
    assert edges[j].faceIndices == [a, b];
    assert a in edges[j].faceIndices && b in edges[j].faceIndices;
    forall n | n in FacesOf(edges)(j) ensures n in {a - 1, b - 1} {
      assert n + 1 in edges[j].faceIndices;
    }
    assert FacesOf(edges)(j) == {a - 1, b - 1};
  }

  lemma {:induction false} FindEdgeFrom(edges: seq<Edge>, j: nat, k: nat)
    requires k <= j < |edges| && EdgesChecked(edges)
    ensures FindEdge(edges, edges[j].index, k) == Some(j)
    decreases j - k
  {
    if k < j {
      FindEdgeFrom(edges, j, k + 1);
    }
  }

  /** An edge that a face lists lists the face: this is what is checked. */
  lemma CheckedDirection(faces: seq<Face>, edges: seq<Edge>, i: nat, j: nat)
    requires Admitted(faces, edges) && i < 6 && j < 12 && edges[j].index in faces[i].edgeIndices
    ensures i + 1 in edges[j].faceIndices
  {
  }

  function Swap(p: (int, int)): (int, int) {
    (p.1, p.0)
  }

  lemma Listing(edges: seq<Edge>, i: nat, j: nat)
    requires j < |edges| && i + 1 in edges[j].faceIndices
    ensures i in FacesOf(edges)(j)
  {
  }

  lemma ListedCount(faces: seq<Face>, edges: seq<Edge>)
    requires Admitted(faces, edges)
    ensures |Pairs(EdgesOf(faces, edges), 6)| == 24
  {
    forall i | 0 <= i < 6 ensures |EdgesOf(faces, edges)(i)| == 4 {
      assert FaceChecked(faces, i) && AllListedBack(edges, faces[i].edgeIndices, i + 1);
      FourEdges(faces, edges, i);
    }
    PairCount(EdgesOf(faces, edges), 6, 4);
  }

  lemma ListingCount(faces: seq<Face>, edges: seq<Edge>)
    requires Admitted(faces, edges)
    ensures |Pairs(FacesOf(edges), 12)| == 24
  {
    forall j | 0 <= j < 12 ensures |FacesOf(edges)(j)| == 2 {
      TwoFaces(edges, j);
    }
    PairCount(FacesOf(edges), 12, 2);
  }

  /** Both ways of listing give twenty-four pairs, and one way is contained in
      the other: so they are the same. */
  lemma SamePairs(faces: seq<Face>, edges: seq<Edge>)
    requires Admitted(faces, edges)
    ensures Pairs(EdgesOf(faces, edges), 6) == set p | p in Pairs(FacesOf(edges), 12) :: Swap(p)
  {
    var listed, listing := Pairs(EdgesOf(faces, edges), 6), Pairs(FacesOf(edges), 12);
    var swapped := set p | p in listing :: Swap(p);
    ListedCount(faces, edges);
    ListingCount(faces, edges);
    ImageSize(listing, swapped, Swap);
    forall p | p in listed ensures p in swapped {
      CheckedDirection(faces, edges, p.0, p.1);
      Listing(edges, p.0, p.1);
      assert (p.1, p.0) in listing;
      assert Swap((p.1, p.0)) == p;
    }
    SameSizeSubset(listed, swapped);
  }

  /** Incidence is reciprocal, although only one direction is checked. */
  lemma Reciprocal(faces: seq<Face>, edges: seq<Edge>, i: nat, j: nat)
    requires Admitted(faces, edges) && i < 6 && j < 12
    ensures edges[j].index in faces[i].edgeIndices <==> i + 1 in edges[j].faceIndices
  {
    SamePairs(faces, edges);
    if edges[j].index in faces[i].edgeIndices {
      CheckedDirection(faces, edges, i, j);
    }
    if i + 1 in edges[j].faceIndices {
      Listing(edges, i, j);
      assert (j, i) in Pairs(FacesOf(edges), 12);
      assert Swap((j, i)) in Pairs(EdgesOf(faces, edges), 6);
    }
  }

  // ---------------------------------------------------------------- the six signatures

  function Sides(faces: seq<Face>): (r: seq<int>)
    ensures |r| == |faces|
  {
    seq(|faces|, k requires 0 <= k < |faces| => match FindSignature(faces[k], 0) case Some(s) => s case None => -1)
  }

  lemma SidesDistinct(faces: seq<Face>)
    requires FacesChecked(faces)
    ensures Distinct(Sides(faces))
  {
    var found := Signatures(faces);
    forall a, b | 0 <= a < b < |faces| ensures Sides(faces)[a] != Sides(faces)[b] {
      assert FaceChecked(faces, a) && FaceChecked(faces, b);
      assert found[..b][a] == found[a];
    }
  }

  lemma SideInRange(faces: seq<Face>, k: nat)
    requires FacesChecked(faces) && k < |faces|
    ensures 0 <= Sides(faces)[k] < 6 && Matches(faces[k], EXPECTED[Sides(faces)[k]])
  {
    assert FaceChecked(faces, k);
  }

  lemma SixOfSix(sides: seq<int>, s: int)
    requires |sides| == 6 && Distinct(sides) && 0 <= s < 6 && forall k :: 0 <= k < 6 ==> 0 <= sides[k] < 6
    ensures exists i :: 0 <= i < 6 && sides[i] == s
  {
    var hit := set n | n in sides;
    DistinctSize(sides);
    assert hit <= {0, 1, 2, 3, 4, 5};
    SameSizeSubset(hit, {0, 1, 2, 3, 4, 5});
    assert s in hit;
  }

  /** The six faces are the six sides of the plate, each exactly once. */
  lemma SignaturesBijective(faces: seq<Face>, s: int)
    requires |faces| == 6 && FacesChecked(faces) && 0 <= s < 6
    ensures exists i :: 0 <= i < 6 && Sides(faces)[i] == s && Matches(faces[i], EXPECTED[s])
    ensures Distinct(Sides(faces))
  {
    SidesDistinct(faces);
    forall k | 0 <= k < 6 ensures 0 <= Sides(faces)[k] < 6 {
      SideInRange(faces, k);
    }
    SixOfSix(Sides(faces), s);
    var i :| 0 <= i < 6 && Sides(faces)[i] == s;
    SideInRange(faces, i);
  }

  // ---------------------------------------------------------------- the checks as run

  lemma FaceCheckedExactly(faces: seq<Face>, i: nat, seen: set<Option<nat>>)
    requires i < |faces| && forall x :: x in seen <==> x in Signatures(faces)[..i]
    ensures FaceChecked(faces, i) <==>
      var index := FindSignature(faces[i], 0);
      index.Some? && index !in seen && |faces[i].edgeIndices| == 4
  {
  }

  lemma SeenGrows(found: seq<Option<nat>>, i: nat, seen: set<Option<nat>>)
    requires i < |found| && forall x :: x in seen <==> x in found[..i]
    ensures forall x :: x in seen + {found[i]} <==> x in found[..i + 1]
  {
    assert found[..i + 1] == found[..i] + [found[i]];
  }

  method ValidateFaces(faces: seq<Face>) returns (ok: bool)
    ensures ok <==> FacesChecked(faces)
  {
    ghost var found := Signatures(faces);
    var seen: set<Option<nat>> := {};
    for i := 0 to |faces|
      invariant forall x :: x in seen <==> x in found[..i]
      invariant forall k :: 0 <= k < i ==> FaceChecked(faces, k)
    {
      FaceCheckedExactly(faces, i, seen);
      var index := FindSignature(faces[i], 0);
      if index == None || index in seen || |faces[i].edgeIndices| != 4 {
        return false;
      }
      SeenGrows(found, i, seen);
      seen := seen + {index};
    }
    return true;
  }

  method ValidateEdges(edges: seq<Edge>) returns (ok: bool)
    ensures ok <==> EdgesChecked(edges)
  {
    var seen: set<int> := {};
    for j := 0 to |edges|
      invariant forall k :: 0 <= k < j ==> EdgeChecked(edges[k]) && edges[k].index in seen
      invariant forall x :: x in seen ==> exists k :: 0 <= k < j && edges[k].index == x
      invariant forall a, b :: 0 <= a < b < j ==> edges[a].index != edges[b].index
    {
      var e := edges[j];
      if e.index <= 0 || e.index in seen || |e.faceIndices| != 2 || e.faceIndices[0] == e.faceIndices[1]
         || exists i | 0 <= i < 2 :: e.faceIndices[i] < 1 || e.faceIndices[i] > 6 {
        return false;
      }
      seen := seen + {e.index};
    }
    return true;
  }

  method ValidateIncidence(faces: seq<Face>, edges: seq<Edge>) returns (ok: bool)
    ensures ok <==> IncidenceChecked(faces, edges)
  {
    for i := 0 to |faces|
      invariant forall a :: 0 <= a < i ==> AllListedBack(edges, faces[a].edgeIndices, a + 1)
    {
      var indices := faces[i].edgeIndices;
      DistinctSize(indices);
      if |set x | x in indices| != |indices| {
        return false;
      }
      for k := 0 to |indices|
        invariant forall l :: 0 <= l < k ==> ListedBack(edges, indices[l], i + 1)
      {
        var found := FindEdge(edges, indices[k], 0);
        if found == None || i + 1 !in edges[found.value].faceIndices {
          assert !ListedBack(edges, indices[k], i + 1);
          return false;
        }
      }
    }
    return true;
  }

  method ValidatePlate(b: Body) returns (ok: bool)
    ensures ok <==> AdmittedPlate(b)
  {
    if !BodyChecked(b) {
      return false;
    }
    var facesOk := ValidateFaces(b.faces);
    if !facesOk || !PlanesChecked(b.faces, b.exactFaces) {
      return false;
    }
    var edgesOk := ValidateEdges(b.edges);
    if !edgesOk {
      return false;
    }
    ok := ValidateIncidence(b.faces, b.edges);
  }

  // ---------------------------------------------------------------- the planes

  /** The axis a face is checked along is the axis of its side exactly if the
      coordinates before it are really small: the centre may be ten times further
      off than what counts as zero here. */
  lemma AxisOfSide(face: Face, s: nat)
    requires s < 6 && Matches(face, EXPECTED[s])
    ensures Axis(face.centroid, 0) == Some(s / 2) <==>
      forall k :: 0 <= k < s / 2 ==> Abs(Coordinate(face.centroid, k)) <= 0.0000001
  {
    var c := face.centroid;
    assert Abs(Coordinate(c, s / 2)) > 0.0000001;
    if s / 2 > 0 {
      assert Axis(c, 1) == if Abs(c.y) > 0.0000001 then Some(1) else Axis(c, 2);
    }
    if s / 2 > 1 {
      assert Axis(c, 2) == Some(2);
    }
  }

  lemma NearOne(v: real)
    requires Near(Abs(v), 1.0)
    ensures Square(v) >= 0.9
  {
    assert Tolerance(1.0) == 0.000001;
    var w := Abs(v);
    assert w >= 0.99;
    ProductNonnegative(w - 0.99, w + 0.99);
    assert Square(v) == Square(w);
  }

  lemma TwoOfThree(d: Vec3, a: nat, c: nat)
    requires a < 3 && c < 3 && a != c
    ensures Square(Coordinate(d, a)) + Square(Coordinate(d, c)) <= d.Dot(d)
  {
    SquareNonnegative(d.x);
    SquareNonnegative(d.y);
    SquareNonnegative(d.z);
    assert d.Dot(d) == Square(d.x) + Square(d.y) + Square(d.z);
  }

  lemma TooLong(p: real, q: real, length: real)
    requires p >= 0.9 && q >= 0.9 && p + q <= length
    ensures length > 1.0
  {
  }

  /** Along two axes at once a vector is longer than a unit vector. */
  lemma AlongTwoAxes(d: Vec3, a: nat, c: nat)
    requires a < 3 && c < 3 && a != c
    requires Near(Abs(Coordinate(d, a)), 1.0) && Near(Abs(Coordinate(d, c)), 1.0)
    ensures d.Dot(d) > 1.0
  {
    TwoOfThree(d, a, c);
    NearOne(Coordinate(d, a));
    NearOne(Coordinate(d, c));
    TooLong(Square(Coordinate(d, a)), Square(Coordinate(d, c)), d.Dot(d));
  }

  /** The plane of a face of an admitted plate, its direction of unit length,
      crosses the axis of the face's side if and only if no coordinate of the centre
      before that axis counts as different from zero. */
  lemma CrossesItsSideExactly(b: Body, i: nat)
    requires AdmittedPlate(b) && i < 6 && b.exactFaces[i].direction.Some?
    requires b.exactFaces[i].direction.value.Dot(b.exactFaces[i].direction.value) == 1.0
    ensures 0 <= Sides(b.faces)[i] < 6
    ensures var axis := Sides(b.faces)[i] / 2;
      Near(Abs(Coordinate(b.exactFaces[i].direction.value, axis)), 1.0) <==>
      forall k :: 0 <= k < axis ==> Abs(Coordinate(b.faces[i].centroid, k)) <= 0.0000001
  {
    SideInRange(b.faces, i);
    var s, d, center := Sides(b.faces)[i], b.exactFaces[i].direction.value, b.faces[i].centroid;
    AxisOfSide(b.faces[i], s);
    assert PlaneChecked(b.exactFaces[i], center);
    var checked := Axis(center, 0).value;
    if checked != s / 2 && Near(Abs(Coordinate(d, s / 2)), 1.0) {
      AlongTwoAxes(d, checked, s / 2);
    }
  }
}
