/** The greedy match of an interface is the only one there is, and exactly when it
    is found. */
module UniqueMatch {
  import opened Wrappers
  import opened Ascending
  import opened FemModel
  import opened InterfaceWeld
  import opened WeldSoundness

  /** One of the first `k`. */
  ghost predicate Among(s: seq<nat>, k: nat, n: nat)
    requires k <= |s|
  {
    exists j :: 0 <= j < k && s[j] == n
  }

  lemma {:induction false} CandidatesComplete(near: (nat, nat) -> bool, n: nat, primary: seq<nat>, used: set<nat>,
      k: nat, p: nat)
    requires k <= |primary| && Among(primary, k, p) && p !in used && near(n, p)
    ensures p in Candidates(near, n, primary, used, k)
  {
    if primary[k - 1] != p {
      CandidatesComplete(near, n, primary, used, k - 1, p);
    }
  }

  /** What is near a node and unused is its candidate, if it has a single one. */
  lemma SingleCandidate(near: (nat, nat) -> bool, n: nat, primary: seq<nat>, used: set<nat>, p: nat)
    requires p in primary && near(n, p) && p !in used
    requires |Candidates(near, n, primary, used, |primary|)| == 1
    ensures Candidates(near, n, primary, used, |primary|)[0] == p
  {
    var i :| 0 <= i < |primary| && primary[i] == p;
    CandidatesComplete(near, n, primary, used, |primary|, p);
  }

  /** If nothing else is near and unused, a node is the only candidate. */
  lemma {:induction false} OnlyCandidate(near: (nat, nat) -> bool, n: nat, primary: seq<nat>, used: set<nat>, k: nat,
      p: nat)
    requires k <= |primary| && Increasing(primary) && p !in used && near(n, p)
    requires forall q :: q in primary && q !in used && near(n, q) ==> q == p
    ensures Candidates(near, n, primary, used, k) == if Among(primary, k, p) then [p] else []
  {
    if k > 0 {
      OnlyCandidate(near, n, primary, used, k - 1, p);
      var last := primary[k - 1];
      assert last in primary;
      if last == p {
        assert !Among(primary, k - 1, p);
        assert Candidates(near, n, primary, used, k) == [] + [p];
      } else {
        assert Among(primary, k, p) <==> Among(primary, k - 1, p);
      }
    }
  }

  // ---------------------------------------------------------------- pairings

  ghost predicate PairsAll(secondary: seq<nat>, other: map<nat, nat>) {
    forall j :: 0 <= j < |secondary| ==> secondary[j] in other
  }

  /** A pairing of all secondary with primary nodes, one-to-one and near. */
  ghost predicate Pairs(near: (nat, nat) -> bool, secondary: seq<nat>, primary: seq<nat>, other: map<nat, nat>) {
    PairsAll(secondary, other) && Injective(other) && Related(near, other) && LandsIn(other, primary)
  }

  /** The part of the pairing for the first `k` nodes. */
  ghost function FirstPairs(secondary: seq<nat>, k: nat, other: map<nat, nat>): map<nat, nat>
    requires k <= |secondary| && PairsAll(secondary, other)
  {
    if k == 0 then map[] else FirstPairs(secondary, k - 1, other)[secondary[k - 1] := other[secondary[k - 1]]]
  }

  lemma {:induction false} FirstKeys(secondary: seq<nat>, k: nat, other: map<nat, nat>, n: nat)
    requires k <= |secondary| && PairsAll(secondary, other)
    ensures n in FirstPairs(secondary, k, other) <==> Among(secondary, k, n)
    ensures n in FirstPairs(secondary, k, other) ==> n in other && FirstPairs(secondary, k, other)[n] == other[n]
  {
    if k > 0 {
      FirstKeys(secondary, k - 1, other, n);
      AmongOneMore(secondary, k - 1, n);
    }
  }

  lemma AmongOneMore(s: seq<nat>, k: nat, n: nat)
    requires k < |s|
    ensures Among(s, k + 1, n) <==> Among(s, k, n) || s[k] == n
  {
  }

  lemma NotAmongBefore(s: seq<nat>, k: nat)
    requires Increasing(s) && k < |s|
    ensures !Among(s, k, s[k])
  {
  }

  lemma AddedValue(m: map<nat, nat>, n: nat, v: nat, p: nat)
    requires n !in m
    ensures p in m[n := v].Values <==> p in m.Values || p == v
  {
    var longer := m[n := v];
    if p in m.Values {
      var x :| x in m && m[x] == p;
      assert longer[x] == p;
    }
    assert longer[n] == v;
  }

  /** The partner of one of the first `k`. */
  ghost predicate PartnerAmong(secondary: seq<nat>, k: nat, other: map<nat, nat>, p: nat)
    requires k <= |secondary| && PairsAll(secondary, other)
  {
    exists j :: 0 <= j < k && other[secondary[j]] == p
  }

  lemma PartnerOneMore(secondary: seq<nat>, k: nat, other: map<nat, nat>, p: nat)
    requires k < |secondary| && PairsAll(secondary, other)
    ensures PartnerAmong(secondary, k + 1, other, p) <==>
      PartnerAmong(secondary, k, other, p) || other[secondary[k]] == p
  {
  }

  lemma {:induction false} FirstValues(secondary: seq<nat>, k: nat, other: map<nat, nat>, p: nat)
    requires k <= |secondary| && Increasing(secondary) && PairsAll(secondary, other)
    ensures p in FirstPairs(secondary, k, other).Values <==> PartnerAmong(secondary, k, other, p)
  {
    if k > 0 {
      var n, before := secondary[k - 1], FirstPairs(secondary, k - 1, other);
      FirstValues(secondary, k - 1, other, p);
      FirstKeys(secondary, k - 1, other, n);
      NotAmongBefore(secondary, k - 1);
      AddedValue(before, n, other[n], p);
      PartnerOneMore(secondary, k - 1, other, p);
    }
  }

  lemma PartnerUnused(near: (nat, nat) -> bool, secondary: seq<nat>, primary: seq<nat>, k: nat, other: map<nat, nat>)
    requires k < |secondary| && Increasing(secondary) && Pairs(near, secondary, primary, other)
    ensures other[secondary[k]] !in FirstPairs(secondary, k, other).Values
  {
    FirstValues(secondary, k, other, other[secondary[k]]);
    forall j | 0 <= j < k ensures other[secondary[j]] != other[secondary[k]] {
      assert secondary[j] != secondary[k];
    }
  }

  // ---------------------------------------------------------------- no other match

  lemma ForcedNext(near: (nat, nat) -> bool, secondary: seq<nat>, primary: seq<nat>, k: nat, other: map<nat, nat>)
    requires k < |secondary| && Increasing(secondary) && Pairs(near, secondary, primary, other)
    requires Matching(near, secondary, primary, k) == Some(FirstPairs(secondary, k, other))
    requires Matching(near, secondary, primary, k + 1).Some?
    ensures Matching(near, secondary, primary, k + 1) == Some(FirstPairs(secondary, k + 1, other))
  {
    var before := FirstPairs(secondary, k, other);
    PartnerUnused(near, secondary, primary, k, other);
    SingleCandidate(near, secondary[k], primary, before.Values, other[secondary[k]]);
  }

  lemma {:induction false} MatchingForced(near: (nat, nat) -> bool, secondary: seq<nat>, primary: seq<nat>, k: nat,
      other: map<nat, nat>)
    requires k <= |secondary| && Increasing(secondary) && Pairs(near, secondary, primary, other)
    requires Matching(near, secondary, primary, k).Some?
    ensures Matching(near, secondary, primary, k) == Some(FirstPairs(secondary, k, other))
  {
    if k > 0 {
      MatchingForced(near, secondary, primary, k - 1, other);
      ForcedNext(near, secondary, primary, k - 1, other);
    }
  }

  /** A one-to-one pairing of the two sides within tolerance. */
  ghost predicate IsPairing(nodes: seq<Vec3>, s: Sides, tolerance: real, other: map<nat, nat>) {
    && other.Keys == s.secondaryNodes && other.Values <= s.primaryNodes
    && Injective(other) && Related(Near(nodes, tolerance), other)
  }

  lemma PairsInOrder(near: (nat, nat) -> bool, secondary: set<nat>, primary: set<nat>, other: map<nat, nat>)
    requires other.Keys == secondary && other.Values <= primary && Injective(other) && Related(near, other)
    ensures Pairs(near, Sorted(secondary), Sorted(primary), other)
  {
    SortedIsSet(secondary);
    SortedIsSet(primary);
    forall n | n in other ensures other[n] in Sorted(primary) {
      assert other[n] in other.Values;
    }
  }

  lemma AllPairs(secondary: set<nat>, other: map<nat, nat>)
    requires other.Keys == secondary && PairsAll(Sorted(secondary), other)
    ensures FirstPairs(Sorted(secondary), |Sorted(secondary)|, other) == other
  {
    var order := Sorted(secondary);
    var local := FirstPairs(order, |order|, other);
    forall n: nat ensures n in local <==> n in other {
      FirstKeys(order, |order|, other, n);
      if n in other {
        assert order[Rank(secondary, n)] == n;
      }
    }
    forall n | n in local ensures local[n] == other[n] {
      FirstKeys(order, |order|, other, n);
    }
  }

  /** A match that is found is unambiguous: no other one-to-one pairing of the two
      sides is within tolerance. */
  lemma MatchIsUnique(nodes: seq<Vec3>, s: Sides, tolerance: real, other: map<nat, nat>)
    requires MatchSides(nodes, s, tolerance).Some? && IsPairing(nodes, s, tolerance, other)
    ensures MatchSides(nodes, s, tolerance) == Some(other)
  {
    var secondary, primary := Sorted(s.secondaryNodes), Sorted(s.primaryNodes);
    SortedIncreases(s.secondaryNodes);
    PairsInOrder(Near(nodes, tolerance), s.secondaryNodes, s.primaryNodes, other);
    MatchingForced(Near(nodes, tolerance), secondary, primary, |secondary|, other);
    AllPairs(s.secondaryNodes, other);
  }

  // ---------------------------------------------------------------- exactly when a match is found

  /** What is near the node is its own partner or that of a node before it. */
  ghost predicate TurnTaken(near: (nat, nat) -> bool, secondary: seq<nat>, primary: seq<nat>, other: map<nat, nat>,
      k: nat)
    requires k < |secondary| && PairsAll(secondary, other)
  {
    forall p :: p in primary && near(secondary[k], p) ==> PartnerAmong(secondary, k + 1, other, p)
  }

  ghost predicate TakenInTurn(near: (nat, nat) -> bool, secondary: seq<nat>, primary: seq<nat>, other: map<nat, nat>)
    requires PairsAll(secondary, other)
  {
    forall k :: 0 <= k < |secondary| ==> TurnTaken(near, secondary, primary, other, k)
  }

  lemma OthersUsed(near: (nat, nat) -> bool, secondary: seq<nat>, primary: seq<nat>, k: nat, other: map<nat, nat>,
      q: nat)
    requires k < |secondary| && Increasing(secondary) && PairsAll(secondary, other)
    requires TurnTaken(near, secondary, primary, other, k) && q in primary && near(secondary[k], q)
    ensures q in FirstPairs(secondary, k, other).Values || q == other[secondary[k]]
  {
    FirstValues(secondary, k, other, q);
    PartnerOneMore(secondary, k, other, q);
  }

  /** The partner of the next node is its only candidate. */
  lemma NextTaken(near: (nat, nat) -> bool, secondary: seq<nat>, primary: seq<nat>, k: nat, other: map<nat, nat>)
    requires k < |secondary| && Increasing(secondary) && Increasing(primary)
    requires Pairs(near, secondary, primary, other) && TurnTaken(near, secondary, primary, other, k)
    ensures Candidates(near, secondary[k], primary, FirstPairs(secondary, k, other).Values, |primary|) ==
      [other[secondary[k]]]
  {
    var n, p, used := secondary[k], other[secondary[k]], FirstPairs(secondary, k, other).Values;
    PartnerUnused(near, secondary, primary, k, other);
    forall q | q in primary && q !in used && near(n, q) ensures q == p {
      OthersUsed(near, secondary, primary, k, other, q);
    }
    assert p in primary;
    OnlyCandidate(near, n, primary, used, |primary|, p);
  }

  lemma FoundNext(near: (nat, nat) -> bool, secondary: seq<nat>, primary: seq<nat>, k: nat, other: map<nat, nat>)
    requires k < |secondary| && Increasing(secondary) && Increasing(primary)
    requires Pairs(near, secondary, primary, other) && TurnTaken(near, secondary, primary, other, k)
    requires Matching(near, secondary, primary, k) == Some(FirstPairs(secondary, k, other))
    ensures Matching(near, secondary, primary, k + 1) == Some(FirstPairs(secondary, k + 1, other))
  {
    NextTaken(near, secondary, primary, k, other);
  }

  lemma {:induction false} FoundInTurn(near: (nat, nat) -> bool, secondary: seq<nat>, primary: seq<nat>, k: nat,
      other: map<nat, nat>)
    requires k <= |secondary| && Increasing(secondary) && Increasing(primary)
    requires Pairs(near, secondary, primary, other) && TakenInTurn(near, secondary, primary, other)
    ensures Matching(near, secondary, primary, k) == Some(FirstPairs(secondary, k, other))
  {
    if k > 0 {
      FoundInTurn(near, secondary, primary, k - 1, other);
      assert TurnTaken(near, secondary, primary, other, k - 1);
      FoundNext(near, secondary, primary, k - 1, other);
    }
  }

  /** All that is near a node has been taken when the node is matched. */
  lemma MatchedNext(near: (nat, nat) -> bool, secondary: seq<nat>, primary: seq<nat>, k: nat, other: map<nat, nat>,
      p: nat)
    requires k < |secondary| && Increasing(secondary) && Pairs(near, secondary, primary, other)
    requires Matching(near, secondary, primary, k) == Some(FirstPairs(secondary, k, other))
    requires Matching(near, secondary, primary, k + 1).Some? && p in primary && near(secondary[k], p)
    ensures PartnerAmong(secondary, k + 1, other, p)
  {
    var used := FirstPairs(secondary, k, other).Values;
    FirstValues(secondary, k, other, p);
    PartnerOneMore(secondary, k, other, p);
    PartnerUnused(near, secondary, primary, k, other);
    SingleCandidate(near, secondary[k], primary, used, other[secondary[k]]);
    if p !in used {
      SingleCandidate(near, secondary[k], primary, used, p);
    }
  }

  /** A found matching took all that is near a node by the end of its turn. */
  lemma MatchedInTurn(near: (nat, nat) -> bool, secondary: seq<nat>, primary: seq<nat>, k: nat, other: map<nat, nat>)
    requires k < |secondary| && Increasing(secondary) && Pairs(near, secondary, primary, other)
    requires Matching(near, secondary, primary, k + 1).Some?
    ensures TurnTaken(near, secondary, primary, other, k)
  {
    assert Matching(near, secondary, primary, k).Some?;
    MatchingForced(near, secondary, primary, k, other);
    forall p | p in primary && near(secondary[k], p) ensures PartnerAmong(secondary, k + 1, other, p) {
      MatchedNext(near, secondary, primary, k, other, p);
    }
  }

  /** Every primary node near a secondary node is its partner or that of a secondary
      node with a smaller number. */
  ghost predicate NearTaken(nodes: seq<Vec3>, s: Sides, tolerance: real, other: map<nat, nat>) {
    forall n, p :: n in s.secondaryNodes && p in s.primaryNodes && Near(nodes, tolerance)(n, p) ==>
      PartnerBefore(other, n, p)
  }

  ghost predicate PartnerBefore(other: map<nat, nat>, n: nat, p: nat) {
    exists x :: x in other && x <= n && other[x] == p
  }

  lemma NotAfter(s: seq<nat>, j: nat, k: nat)
    requires Increasing(s) && j < |s| && k < |s| && s[j] <= s[k]
    ensures j <= k
  {
  }

  lemma PartnerBeforeInOrder(secondary: set<nat>, other: map<nat, nat>, k: nat, p: nat)
    requires other.Keys == secondary && k < |Sorted(secondary)| && PairsAll(Sorted(secondary), other)
    requires PartnerBefore(other, Sorted(secondary)[k], p)
    ensures PartnerAmong(Sorted(secondary), k + 1, other, p)
  {
    var order := Sorted(secondary);
    SortedIncreases(secondary);
    var x :| x in other && x <= order[k] && other[x] == p;
    var j := Rank(secondary, x);
    assert order[j] == x;
    NotAfter(order, j, k);
  }

  lemma PartnerInOrder(secondary: seq<nat>, other: map<nat, nat>, k: nat, p: nat)
    requires Increasing(secondary) && k < |secondary| && PairsAll(secondary, other)
    requires PartnerAmong(secondary, k + 1, other, p)
    ensures PartnerBefore(other, secondary[k], p)
  {
    var j :| 0 <= j <= k && other[secondary[j]] == p;
    assert secondary[j] <= secondary[k];
  }

  lemma KeysInOrder(secondary: set<nat>, other: map<nat, nat>)
    requires other.Keys == secondary
    ensures PairsAll(Sorted(secondary), other) && Increasing(Sorted(secondary))
  {
    SortedIsSet(secondary);
  }

  lemma InTurnAsSets(nodes: seq<Vec3>, s: Sides, tolerance: real, other: map<nat, nat>)
    requires other.Keys == s.secondaryNodes
    ensures PairsAll(Sorted(s.secondaryNodes), other)
    ensures NearTaken(nodes, s, tolerance, other) <==>
      TakenInTurn(Near(nodes, tolerance), Sorted(s.secondaryNodes), Sorted(s.primaryNodes), other)
  {
    var near, secondary, primary := Near(nodes, tolerance), Sorted(s.secondaryNodes), Sorted(s.primaryNodes);
    KeysInOrder(s.secondaryNodes, other);
    SortedMembers(s.primaryNodes);
    if NearTaken(nodes, s, tolerance, other) {
      forall k, p | 0 <= k < |secondary| && p in primary && near(secondary[k], p)
        ensures PartnerAmong(secondary, k + 1, other, p)
      {
        assert p in s.primaryNodes && secondary[k] in other;
        PartnerBeforeInOrder(s.secondaryNodes, other, k, p);
      }
    }
    if TakenInTurn(near, secondary, primary, other) {
      forall n, p | n in s.secondaryNodes && p in s.primaryNodes && near(n, p) ensures PartnerBefore(other, n, p) {
        var k := Rank(s.secondaryNodes, n);
        assert TurnTaken(near, secondary, primary, other, k);
        PartnerInOrder(secondary, other, k, p);
      }
    }
  }

  lemma PairingIsFound(nodes: seq<Vec3>, s: Sides, tolerance: real, other: map<nat, nat>)
    requires IsPairing(nodes, s, tolerance, other) && NearTaken(nodes, s, tolerance, other)
    ensures MatchSides(nodes, s, tolerance) == Some(other)
  {
    var near, secondary, primary := Near(nodes, tolerance), Sorted(s.secondaryNodes), Sorted(s.primaryNodes);
    SortedIncreases(s.secondaryNodes);
    SortedIncreases(s.primaryNodes);
    PairsInOrder(near, s.secondaryNodes, s.primaryNodes, other);
    InTurnAsSets(nodes, s, tolerance, other);
    FoundInTurn(near, secondary, primary, |secondary|, other);
    MatchIsUnique(nodes, s, tolerance, other);
  }

  lemma MatchIsPairing(nodes: seq<Vec3>, s: Sides, tolerance: real, local: map<nat, nat>)
    requires MatchSides(nodes, s, tolerance) == Some(local)
    ensures IsPairing(nodes, s, tolerance, local)
  {
    var secondary, primary := Sorted(s.secondaryNodes), Sorted(s.primaryNodes);
    SortedIncreases(s.secondaryNodes);
    SortedMembers(s.primaryNodes);
    MatchedKeys(nodes, s, tolerance);
    MatchingSound(Near(nodes, tolerance), secondary, primary, |secondary|);
    forall p | p in local.Values ensures p in s.primaryNodes {
      var n :| n in local && local[n] == p;
    }
  }

  lemma OneTurnTaken(near: (nat, nat) -> bool, secondary: seq<nat>, primary: seq<nat>, other: map<nat, nat>, k: nat)
    requires Increasing(secondary) && Pairs(near, secondary, primary, other) && k < |secondary|
    requires Matching(near, secondary, primary, |secondary|).Some?
    ensures TurnTaken(near, secondary, primary, other, k)
  {
    if Matching(near, secondary, primary, k + 1).None? {
      MatchingFails(near, secondary, primary, k + 1, |secondary|);
    }
    MatchedInTurn(near, secondary, primary, k, other);
  }

  lemma AllTurnsTaken(near: (nat, nat) -> bool, secondary: seq<nat>, primary: seq<nat>, other: map<nat, nat>)
    requires Increasing(secondary) && Pairs(near, secondary, primary, other)
    requires Matching(near, secondary, primary, |secondary|).Some?
    ensures TakenInTurn(near, secondary, primary, other)
  {
    forall k | 0 <= k < |secondary| ensures TurnTaken(near, secondary, primary, other, k) {
      OneTurnTaken(near, secondary, primary, other, k);
    }
  }

  lemma FoundIsTaken(nodes: seq<Vec3>, s: Sides, tolerance: real, local: map<nat, nat>)
    requires MatchSides(nodes, s, tolerance) == Some(local)
    ensures NearTaken(nodes, s, tolerance, local)
  {
    var near, secondary, primary := Near(nodes, tolerance), Sorted(s.secondaryNodes), Sorted(s.primaryNodes);
    MatchIsPairing(nodes, s, tolerance, local);
    PairsInOrder(near, s.secondaryNodes, s.primaryNodes, local);
    SortedIncreases(s.secondaryNodes);
    AllTurnsTaken(near, secondary, primary, local);
    InTurnAsSets(nodes, s, tolerance, local);
  }

  /** Exactly when the greedy loop finds a pairing: it is one-to-one and within
      tolerance, and whatever is near a node belongs to it or to an earlier one. */
  lemma MatchFoundExactly(nodes: seq<Vec3>, s: Sides, tolerance: real, other: map<nat, nat>)
    ensures MatchSides(nodes, s, tolerance) == Some(other) <==>
      IsPairing(nodes, s, tolerance, other) && NearTaken(nodes, s, tolerance, other)
  {
    if MatchSides(nodes, s, tolerance) == Some(other) {
      MatchIsPairing(nodes, s, tolerance, other);
      FoundIsTaken(nodes, s, tolerance, other);
    }
    if IsPairing(nodes, s, tolerance, other) && NearTaken(nodes, s, tolerance, other) {
      PairingIsFound(nodes, s, tolerance, other);
    }
  }
}
