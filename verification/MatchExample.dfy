/** An interface whose two sides have one single one-to-one match within tolerance,
    and which the greedy matching refuses all the same. */
module MatchExample {
  import opened Wrappers
  import opened Ascending
  import opened FemModel
  import opened InterfaceWeld
  import opened WeldSoundness
  import opened UniqueMatch

  /** On a line: two secondary nodes at 0 and 3, two primary ones at -1 and 1.5. */
  const LINE: seq<Vec3> := [Vec3(0.0, 0.0, 0.0), Vec3(3.0, 0.0, 0.0), Vec3(-1.0, 0.0, 0.0), Vec3(1.5, 0.0, 0.0)]

  const SIDES := Sides([], [], {0, 1}, {2, 3})

  const ONLY_MATCH: map<nat, nat> := map[0 := 2, 1 := 3]

  /** Whether two points of the line are near each other, from their difference. */
  lemma OnLine(p: Vec3, q: Vec3, dx: real, near: bool)
    requires p.x - q.x == dx && p.y == q.y && p.z == q.z && near == (dx * dx <= 4.0)
    ensures Within(p, q, 2.0) == near
  {
  }

  lemma NearByDifference(n: nat, p: nat, dx: real, near: bool)
    requires n < 4 && p < 4 && LINE[n].x - LINE[p].x == dx && near == (dx * dx <= 4.0)
    ensures Near(LINE, 2.0)(n, p) == near
  {
    OnLine(LINE[n], LINE[p], dx, near);
  }

  lemma NearExactly(n: nat, p: nat)
    requires n < 2 && 2 <= p < 4
    ensures Near(LINE, 2.0)(n, p) <==> n == 0 || p == 3
  {
    var dx := (if n == 0 then 0.0 else 3.0) - (if p == 2 then -1.0 else 1.5);
    var near := n == 0 || p == 3;
    assert near == (dx * dx <= 4.0);
    NearByDifference(n, p, dx, near);
  }

  lemma TwoSorted(a: nat, b: nat)
    requires a < b
    ensures Sorted({a, b}) == [a, b]
  {
    SortedIsSet({a, b});
    var s := Sorted({a, b});
    assert |{a, b}| == 2;
    assert s[0] in {a, b} && s[1] in {a, b};
  }

  lemma TwoCandidates(near: (nat, nat) -> bool)
    requires near(0, 2) && near(0, 3)
    ensures |Candidates(near, 0, [2, 3], {}, 2)| == 2
  {
    assert Candidates(near, 0, [2, 3], {}, 0) == [];
    assert Candidates(near, 0, [2, 3], {}, 1) == [2];
  }

  /** The second node has one near partner, and the first the other. */
  lemma OnlyChoice(near: (nat, nat) -> bool, other: map<nat, nat>)
    requires other.Keys == {0, 1} && other.Values <= {2, 3} && Injective(other) && Related(near, other) && !near(1, 2)
    ensures other == ONLY_MATCH
  {
    assert 0 in other && 1 in other;
    assert other[0] in other.Values && other[1] in other.Values;
    assert other[1] == 3;
    assert other[0] == 2;
  }

  lemma OnlyOneMatch(other: map<nat, nat>)
    requires IsPairing(LINE, SIDES, 2.0, other)
    ensures other == ONLY_MATCH
  {
    NearExactly(1, 2);
    OnlyChoice(Near(LINE, 2.0), other);
  }

  lemma PairsBothSides(near: (nat, nat) -> bool)
    requires near(0, 2) && near(1, 3)
    ensures ONLY_MATCH.Keys == {0, 1} && ONLY_MATCH.Values == {2, 3}
    ensures Injective(ONLY_MATCH) && Related(near, ONLY_MATCH)
  {
    forall v | v in {2, 3} ensures v in ONLY_MATCH.Values {
      assert ONLY_MATCH[0] == 2 && ONLY_MATCH[1] == 3;
    }
  }

  lemma OnlyMatchIsNear()
    ensures IsPairing(LINE, SIDES, 2.0, ONLY_MATCH)
  {
    NearExactly(0, 2);
    NearExactly(1, 3);
    PairsBothSides(Near(LINE, 2.0));
  }

  /** Two candidates for the first node end the search. */
  lemma RefusedAtFirst(near: (nat, nat) -> bool)
    requires near(0, 2) && near(0, 3)
    ensures Matching(near, [0, 1], [2, 3], 2) == None
  {
    var none: map<nat, nat> := map[];
    assert none.Values == {};
    TwoCandidates(near);
    assert Matching(near, [0, 1], [2, 3], 0) == Some(none);
    assert Matching(near, [0, 1], [2, 3], 1).None?;
    MatchingFails(near, [0, 1], [2, 3], 1, 2);
  }

  lemma NotFound()
    ensures MatchSides(LINE, SIDES, 2.0) == None
  {
    NearExactly(0, 2);
    NearExactly(0, 3);
    TwoSorted(0, 1);
    TwoSorted(2, 3);
    RefusedAtFirst(Near(LINE, 2.0));
  }

  /** There is exactly one match, and it is not found: the first node alone has two
      candidates. */
  lemma SingleMatchRefused()
    ensures IsPairing(LINE, SIDES, 2.0, ONLY_MATCH)
    ensures forall other :: IsPairing(LINE, SIDES, 2.0, other) ==> other == ONLY_MATCH
    ensures MatchSides(LINE, SIDES, 2.0) == None
  {
    OnlyMatchIsNear();
    forall other | IsPairing(LINE, SIDES, 2.0, other) ensures other == ONLY_MATCH {
      OnlyOneMatch(other);
    }
    NotFound();
  }
}
