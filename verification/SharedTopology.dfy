/** Which interactions are welded, in which order, and the whole weld of a
    composed model as one function. */
module SharedTopology {
  import opened Wrappers
  import opened Ascending
  import opened FemModel
  import opened InterfaceWeld
  import opened WeldSoundness
  import opened Compaction
  import opened WeldedModel

  function SharedOnly(interactions: seq<Interaction>): (r: seq<Interaction>)
    ensures AllShared(r)
  {
    if interactions == [] then []
    else
      var init, last := SharedOnly(interactions[..|interactions| - 1]), interactions[|interactions| - 1];
      if last.SharedTopology? then init + [last] else init
  }

  /** `a < b` on identifiers: character by character. */
  predicate Before(a: string, b: string) {
    if b == "" then false
    else if a == "" then true
    else a[0] < b[0] || (a[0] == b[0] && Before(a[1..], b[1..]))
  }

  /** Equal up to the k-th character, where the first one ends or has the smaller character. */
  ghost predicate PrecedesAt(a: string, b: string, k: nat) {
    k <= |a| && k < |b| && a[..k] == b[..k] && (k < |a| ==> a[k] < b[k])
  }

  lemma PrecedesNext(a: string, b: string, k: nat)
    requires a != "" && b != "" && a[0] == b[0]
    ensures PrecedesAt(a[1..], b[1..], k) <==> PrecedesAt(a, b, k + 1)
  {
    if k + 1 <= |a| && k + 1 < |b| {
      assert a[..k + 1] == [a[0]] + a[1..][..k] && b[..k + 1] == [b[0]] + b[1..][..k];
      assert a[..k + 1][1..] == a[1..][..k] && b[..k + 1][1..] == b[1..][..k];
    }
  }

  lemma {:induction false} BeforeAt(a: string, b: string) returns (k: nat)
    requires Before(a, b)
    ensures PrecedesAt(a, b, k)
  {
    k := 0;
    if a != "" && a[0] == b[0] {
      k := BeforeAt(a[1..], b[1..]);
      PrecedesNext(a, b, k);
      k := k + 1;
    }
  }

  lemma {:induction false} AtIsBefore(a: string, b: string, k: nat)
    requires PrecedesAt(a, b, k)
    ensures Before(a, b)
  {
    if k > 0 {
      assert a[0] == a[..k][0] == b[..k][0] == b[0];
      PrecedesNext(a, b, k - 1);
      AtIsBefore(a[1..], b[1..], k - 1);
    }
  }

  /** The order of identifiers is that of their first different characters; a beginning
      comes before what it begins. */
  lemma BeforeExactly(a: string, b: string)
    ensures Before(a, b) <==> exists k :: PrecedesAt(a, b, k)
  {
    if Before(a, b) {
      var k := BeforeAt(a, b);
    }
    if k :| PrecedesAt(a, b, k) {
      AtIsBefore(a, b, k);
    }
  }

  /** The stable place of `x` in a list ordered by id: after every equal id. */
  function InsertById(s: seq<Interaction>, x: Interaction): (r: seq<Interaction>)
    ensures multiset(r) == multiset(s) + multiset{x}
  {
    if s == [] then [x]
    else if Before(x.id, s[|s| - 1].id) then
      assert s == s[..|s| - 1] + [s[|s| - 1]];
      InsertById(s[..|s| - 1], x) + [s[|s| - 1]]
    else s + [x]
  }

  function SortById(s: seq<Interaction>): (r: seq<Interaction>)
    ensures multiset(r) == multiset(s)
  {
    if s == [] then []
    else
      assert s == s[..|s| - 1] + [s[|s| - 1]];
      InsertById(SortById(s[..|s| - 1]), s[|s| - 1])
  }

  ghost predicate OrderedById(s: seq<Interaction>) {
    forall i, j :: 0 <= i < j < |s| ==> !Before(s[j].id, s[i].id)
  }

  lemma {:induction false} BeforeTransitive(a: string, b: string, c: string)
    requires Before(a, b) && !Before(c, b)
    ensures Before(a, c)
  {
    if a != "" && c != "" && b != "" && a[0] == b[0] && b[0] == c[0] {
      BeforeTransitive(a[1..], b[1..], c[1..]);
    }
  }

  lemma {:induction false} BeforeAsymmetric(a: string, b: string)
    requires Before(a, b)
    ensures !Before(b, a)
  {
    if a != "" && a[0] == b[0] {
      BeforeAsymmetric(a[1..], b[1..]);
    }
  }

  /** A list ordered up to its last element and nowhere after it is ordered. */
  lemma InsertLast(s: seq<Interaction>, last: Interaction)
    requires OrderedById(s) && forall i :: 0 <= i < |s| ==> !Before(last.id, s[i].id)
    ensures OrderedById(s + [last])
  {
  }

  lemma {:induction false} InsertKeepsOrder(s: seq<Interaction>, x: Interaction)
    requires OrderedById(s)
    ensures OrderedById(InsertById(s, x))
  {
    if s != [] {
      var init, last := s[..|s| - 1], s[|s| - 1];
      if Before(x.id, last.id) {
        InsertKeepsOrder(init, x);
        var r := InsertById(init, x);
        BeforeAsymmetric(x.id, last.id);
        forall i | 0 <= i < |r| ensures !Before(last.id, r[i].id) {
          assert r[i] in multiset(r);
          assert r[i] == x || r[i] in multiset(init);
        }
        InsertLast(r, last);
      } else {
        forall i | 0 <= i < |s| ensures !Before(x.id, s[i].id) {
          if Before(x.id, s[i].id) && i < |init| {
            assert !Before(last.id, s[i].id);
            BeforeTransitive(x.id, s[i].id, last.id);
          }
        }
        InsertLast(s, x);
      }
    }
  }

  lemma {:induction false} SortIsOrdered(s: seq<Interaction>)
    ensures OrderedById(SortById(s))
  {
    if s != [] {
      SortIsOrdered(s[..|s| - 1]);
      InsertKeepsOrder(SortById(s[..|s| - 1]), s[|s| - 1]);
    }
  }

  /** The interactions the weld accepts one after the other. */
  function SharedInOrder(interactions: seq<Interaction>): seq<Interaction> {
    SortById(SharedOnly(interactions))
  }

  lemma {:induction false} SharedOnlyMembers(interactions: seq<Interaction>, x: Interaction)
    ensures x in SharedOnly(interactions) <==> x in interactions && x.SharedTopology?
  {
    if interactions != [] {
      SharedOnlyMembers(interactions[..|interactions| - 1], x);
      assert interactions == interactions[..|interactions| - 1] + [interactions[|interactions| - 1]];
    }
  }

  lemma SharedInOrderMembers(interactions: seq<Interaction>)
    ensures AllShared(SharedInOrder(interactions))
    ensures forall x :: x in SharedInOrder(interactions) <==> x in interactions && x.SharedTopology?
  {
    var shared, ordered := SharedOnly(interactions), SharedInOrder(interactions);
    forall x ensures x in ordered <==> x in interactions && x.SharedTopology? {
      SharedOnlyMembers(interactions, x);
      assert x in multiset(ordered) <==> x in multiset(shared);
    }
    forall j | 0 <= j < |ordered| ensures ordered[j].SharedTopology? {
      assert ordered[j] in ordered;
    }
  }

  /** The model is well formed and no shared interaction has one domain on both sides. */
  ghost predicate Weldable(m: Composed, home: seq<string>, interactions: seq<Interaction>) {
    && WellFormed(m, home)
    && forall x :: x in interactions && x.SharedTopology? ==> SidesApart(InterfaceOf(m), x)
  }

  lemma WeldableApplicable(m: Composed, home: seq<string>, interactions: seq<Interaction>)
    requires Weldable(m, home, interactions)
    ensures Applicable(m, home, SharedInOrder(interactions)) && InterfaceOf(m).Valid()
  {
    SharedInOrderMembers(interactions);
    WellFormedInterface(m, home);
  }

  lemma ReachedCompactable(m: Composed, home: seq<string>, interactions: seq<Interaction>, st: WeldState)
    requires Applicable(m, home, interactions) && InterfaceOf(m).Valid() && Reaches(InterfaceOf(m), interactions, st)
    ensures Sound(home, st) && Compactable(m, st.weld)
  {
    ApplicableAdmitted(m, home, interactions);
    WeldSound(InterfaceOf(m), home, interactions, st);
    SoundCompactable(m, home, st);
  }

  /** The whole weld: a model without shared interactions is left exactly as it
      is, unused nodes included. */
  function ApplyWeld(m: Composed, ghost home: seq<string>, interactions: seq<Interaction>): Result<Composed, WeldError>
    requires Weldable(m, home, interactions)
  {
    var ordered := SharedInOrder(interactions);
    WeldableApplicable(m, home, interactions);
    if ordered == [] then Success(m)
    else
      match WeldAll(InterfaceOf(m), ordered)
      case Failure(error) => Failure(error)
      case Success(st) =>
        ReachedCompactable(m, home, ordered, st);
        Success(Compacted(m, st.weld))
  }
}
