/** Finite sets of node numbers laid out in increasing order: the meaning of
    `[...new Set(xs)].sort((a, b) => a - b)`, and the counting facts about
    finite sets that the interface weld rests on. */
module Ascending {

  ghost predicate Increasing(s: seq<nat>) {
    forall i, j :: 0 <= i < j < |s| ==> s[i] < s[j]
  }

  lemma {:induction false} FindMinimum(s: set<nat>) returns (least: nat)
    requires s != {}
    ensures least in s && forall x :: x in s ==> least <= x
  {
    var m :| m in s;
    if s == {m} {
      least := m;
    } else {
      var k := FindMinimum(s - {m});
      least := if m < k then m else k;
      forall x | x in s ensures least <= x {
        assert x == m || x in s - {m};
      }
    }
  }

  lemma MinimumExists(s: set<nat>)
    requires s != {}
    ensures exists m :: m in s && forall x :: x in s ==> m <= x
  {
    var least := FindMinimum(s);
  }

  function Minimum(s: set<nat>): (m: nat)
    requires s != {}
    ensures m in s && forall x :: x in s ==> m <= x
  {
    MinimumExists(s);
    var m :| m in s && forall x :: x in s ==> m <= x;
    m
  }

  function Sorted(s: set<nat>): seq<nat>
    decreases |s|
  {
    if s == {} then [] else [Minimum(s)] + Sorted(s - {Minimum(s)})
  }

  lemma {:induction false} SortedMembers(s: set<nat>)
    ensures |Sorted(s)| == |s|
    ensures forall i :: 0 <= i < |Sorted(s)| ==> Sorted(s)[i] in s
    ensures forall x :: x in s ==> x in Sorted(s)
    decreases |s|
  {
    if s != {} {
      var m := Minimum(s);
      SortedMembers(s - {m});
      forall x | x in s ensures x in Sorted(s) {
        assert x == m || x in s - {m};
      }
    }
  }

  lemma {:induction false} SortedIncreases(s: set<nat>)
    ensures Increasing(Sorted(s))
    decreases |s|
  {
    if s != {} {
      var m := Minimum(s);
      var rest := Sorted(s - {m});
      SortedIncreases(s - {m});
      SortedMembers(s - {m});
      forall i | 0 <= i < |rest| ensures m < rest[i] {
        assert rest[i] in s - {m};
      }
      PrependSmaller(m, rest);
    }
  }

  lemma PrependSmaller(m: nat, rest: seq<nat>)
    requires Increasing(rest) && forall i :: 0 <= i < |rest| ==> m < rest[i]
    ensures Increasing([m] + rest)
  {
  }

  /** The list holds exactly the set, in strictly increasing order. */
  lemma SortedIsSet(s: set<nat>)
    ensures |Sorted(s)| == |s| && Increasing(Sorted(s))
    ensures forall i :: 0 <= i < |Sorted(s)| ==> Sorted(s)[i] in s
    ensures forall x :: x in s ==> x in Sorted(s)
  {
  }

  /** Where a member of the set stands in that order. */
  function Rank(s: set<nat>, x: nat): (i: nat)
    requires x in s
    ensures i < |Sorted(s)| && Sorted(s)[i] == x
  {
    SortedIsSet(s);
    var r := Sorted(s);
    var i :| 0 <= i < |r| && r[i] == x;
    i
  }

  lemma RankIsOrderPreserving(s: set<nat>, x: nat, y: nat)
    requires x in s && y in s
    ensures x < y <==> Rank(s, x) < Rank(s, y)
  {
    SortedIsSet(s);
  }

  /** An injective image of a finite set has as many elements as the set. */
  lemma {:induction false} ImageSize<A, B>(s: set<A>, t: set<B>, f: A -> B)
    requires forall x, y :: x in s && y in s && f(x) == f(y) ==> x == y
    requires t == set x | x in s :: f(x)
    ensures |t| == |s|
    decreases s
  {
    if s != {} {
      var x :| x in s;
      var s', t' := s - {x}, t - {f(x)};
      assert t' == set y | y in s' :: f(y);
      ImageSize(s', t', f);
    }
  }

  /** The pigeonhole principle: a subset of the same finite size is the whole set. */
  lemma {:induction false} SameSizeSubset<T>(s: set<T>, t: set<T>)
    requires s <= t && |s| == |t|
    ensures s == t
  {
    if x :| x in t && x !in s {
      SubsetSize(s, t - {x});
    }
  }

  predicate Distinct<T(==)>(s: seq<T>) {
    forall i, j :: 0 <= i < j < |s| ==> s[i] != s[j]
  }

  /** A list is as long as its set of elements exactly when it repeats nothing;
      otherwise it is longer. */
  lemma {:induction false} DistinctSize<T>(s: seq<T>)
    ensures |set x | x in s| <= |s|
    ensures |set x | x in s| == |s| <==> Distinct(s)
  {
    if s != [] {
      var init, last := s[..|s| - 1], s[|s| - 1];
      DistinctSize(init);
      assert s == init + [last];
      assert (set x | x in s) == (set x | x in init) + {last};
      if last in init {
        var i :| 0 <= i < |init| && init[i] == last;
        assert s[i] == s[|s| - 1];
      }
      if i, j :| 0 <= i < j < |s| && s[i] == s[j] {
        assert j < |init| ==> init[i] == init[j];
        assert j == |init| ==> init[i] in init;
      }
    }
  }

  lemma {:induction false} SubsetSize<T>(s: set<T>, t: set<T>)
    requires s <= t
    ensures |s| <= |t|
  {
    assert |t| == |s + (t - s)| == |s| + |t - s| by {
      assert t == s + (t - s);
    }
  }
}
