/** The pilot with its native stages: what the owner's evidence says about the
    processes that were really run for it. */
module NativePilot {
  import opened Wrappers
  import opened FracturePilot
  import opened OwnedStage

  /** What can happen to an owner of native stages: a stage runs to its end in some
      world, the native driver refuses before it begins, or anything else.
      `admissible` sums up the checks of what the stage wrote. */
  datatype NativeEvent =
    | StageRan(world: World, admissible: bool)
    | StageRefused
    | Other(event: FracturePilot.Event)

  /** What the owner hears of a stage. A returned output comes with exit code zero
      and confirmed clean-up; an error may say whether the clean-up was confirmed. */
  function Heard(e: NativeEvent): FracturePilot.Event {
    match e
    case StageRan(world, admissible) =>
      (match StageResultOf(world)
       case StageReturned(_) => StageDone(Some(StageOutput(0, true, admissible)), None)
       case StageThrew(confirmed) => StageDone(None, confirmed))
    case StageRefused => StageDone(None, None)
    case Other(event) => event
  }

  function HeardAll(events: seq<NativeEvent>): (r: seq<FracturePilot.Event>)
    ensures |r| == |events|
  {
    seq(|events|, k requires 0 <= k < |events| => Heard(events[k]))
  }

  /** Stages end in no other way. */
  ghost predicate Native(events: seq<NativeEvent>) {
    forall k :: 0 <= k < |events| && events[k].Other? ==> !events[k].event.StageDone?
  }

  ghost predicate RanWell(events: seq<NativeEvent>, k: nat) {
    k < |events| && events[k].StageRan? && Returns(events[k].world) && events[k].admissible
  }

  /** The first `count` stages of the protocol were really run: `first` is the
      mesh and `second` the solve. */
  ghost predicate Backed(events: seq<NativeEvent>, milestones: nat, first: nat, second: nat) {
    && (milestones >= 5 ==> RanWell(events, first))
    && (milestones >= 8 ==> RanWell(events, second) && first < second)
  }

  /** Native stages put their output on record themselves: the owner never waits for that. */
  ghost predicate KeepsNoOutput(s: FracturePilot.State) {
    !s.waiting.ForMeshRetained? && !s.waiting.ForSolveRetained?
  }

  lemma VerifyingKeepsNoOutput(s: FracturePilot.State, round: nat, step: VerifyStep)
    ensures KeepsNoOutput(s) ==> KeepsNoOutput(FracturePilot.AfterCheck(s, round, step))
  {
  }

  lemma JudgedKeepsNoOutput(s: FracturePilot.State, output: StageOutput)
    ensures KeepsNoOutput(s) ==>
      KeepsNoOutput(FracturePilot.JudgeMesh(s, output)) && KeepsNoOutput(FracturePilot.JudgeSolve(s, output))
  {
  }

  lemma RetainedKeepsNoOutput(s: FracturePilot.State, kept: bool)
    ensures KeepsNoOutput(s) ==> KeepsNoOutput(FracturePilot.AfterRetained(s, kept))
  {
  }

  lemma StepKeepsNoOutput(s: FracturePilot.State, e: FracturePilot.Event)
    requires KeepsNoOutput(s)
    ensures KeepsNoOutput(FracturePilot.Step(false, s, e))
  {
    match e
    case Checked(_) =>
      if s.waiting.ForVerification? {
        VerifyingKeepsNoOutput(s, s.waiting.round, s.waiting.step);
      }
    case StageDone(output, _) =>
      if output.Some? {
        JudgedKeepsNoOutput(s, output.value);
      }
    case Retained(kept) => RetainedKeepsNoOutput(s, kept);
    case _ =>
  }

  lemma {:induction false} NeverKeepsOutput(events: seq<FracturePilot.Event>)
    ensures KeepsNoOutput(FracturePilot.Run(false, events))
  {
    if events != [] {
      NeverKeepsOutput(events[..|events| - 1]);
      StepKeepsNoOutput(FracturePilot.Run(false, events[..|events| - 1]), events[|events| - 1]);
    }
  }

  /** An accepted stage output came from a stage that ran well. */
  lemma AcceptedRanWell(s: FracturePilot.State, e: NativeEvent)
    requires FracturePilot.Invariant(s) && KeepsNoOutput(s) && (e.Other? ==> !e.event.StageDone?)
    ensures var t := FracturePilot.Step(false, s, Heard(e));
      && ((|s.log| < 5 <= |t.log|) || (|s.log| < 8 <= |t.log|) ==> e.StageRan? && Returns(e.world) && e.admissible)
      && (|s.log| < 8 <= |t.log| ==> |s.log| >= 5)
  {
    match e
    case Other(event) => NoStageNoOutput(s, event);
    case _ =>
  }

  lemma NoStageNoOutput(s: FracturePilot.State, e: FracturePilot.Event)
    requires FracturePilot.Invariant(s) && KeepsNoOutput(s) && !e.StageDone?
    ensures var t := FracturePilot.Step(false, s, e);
      !(|s.log| < 5 <= |t.log|) && !(|s.log| < 8 <= |t.log|)
  {
  }

  /** Every mesh and every solve the owner has accepted was run: launched before any
      abort, ended with zero within its limits, terminated, cleaned up, on record. */
  lemma {:induction false} AcceptedStagesRan(events: seq<NativeEvent>) returns (first: nat, second: nat)
    requires Native(events)
    ensures Backed(events, |FracturePilot.Run(false, HeardAll(events)).log|, first, second)
  {
    first, second := 0, 0;
    if events != [] {
      var init, last := events[..|events| - 1], |events| - 1;
      first, second := AcceptedStagesRan(init);
      var s := FracturePilot.Run(false, HeardAll(init));
      assert HeardAll(events)[..last] == HeardAll(init);
      FracturePilot.Always(false, HeardAll(init));
      NeverKeepsOutput(HeardAll(init));
      AcceptedRanWell(s, events[last]);
      var n := |FracturePilot.Run(false, HeardAll(events)).log|;
      if |s.log| < 5 <= n {
        first := last;
      } else if |s.log| < 8 <= n {
        second := last;
      }
    }
  }

  /** So evidence that can be used rests on two native runs, the mesh before the
      solve, both confirmed. */
  lemma EvidenceRestsOnRuns(events: seq<NativeEvent>, expired: bool) returns (first: nat, second: nat)
    requires Native(events) && EvidenceBegins(FracturePilot.Run(false, HeardAll(events)), expired)
    ensures first < second && RanWell(events, first) && RanWell(events, second)
    ensures Confirmed(events[first].world.ending) && Confirmed(events[second].world.ending)
  {
    FracturePilot.Always(false, HeardAll(events));
    first, second := AcceptedStagesRan(events);
  }

  /** What becomes of an output that is judged. */
  ghost predicate Judged(s: FracturePilot.State, t: FracturePilot.State, accepted: bool, what: Milestone, round: nat) {
    && t.log == (if accepted then s.log + [what] else s.log)
    && (accepted && !s.disposed ==> t.waiting == FracturePilot.ForVerification(round, FirstRead))
    && (!accepted ==> t.waiting.ForFailureRetained?)
  }

  lemma JudgedExactly(s: FracturePilot.State, output: StageOutput)
    ensures var accepted := !s.aborted && output.code == 0 && output.cleanupConfirmed && output.admissible;
      && Judged(s, FracturePilot.JudgeMesh(s, output), accepted, MeshAccepted, 1)
      && Judged(s, FracturePilot.JudgeSolve(s, output), accepted, SolveAccepted, 2)
    ensures FracturePilot.JudgeMesh(s, output).cleanupConfirmed == output.cleanupConfirmed
    ensures FracturePilot.JudgeSolve(s, output).cleanupConfirmed == output.cleanupConfirmed
  {
  }

  /** The owner accepts a native stage exactly if it is not aborted by then, the stage ran
      well and what it wrote is admissible; an error passes on what it says of the clean-up. */
  lemma AcceptedExactly(s: FracturePilot.State, world: World, admissible: bool)
    requires s.waiting.ForMesh? || s.waiting.ForSolve?
    ensures var t := FracturePilot.Step(false, s, Heard(StageRan(world, admissible)));
      var accepted := !s.aborted && Returns(world) && admissible;
      && (s.waiting.ForMesh? ==> Judged(s, t, accepted, MeshAccepted, 1))
      && (s.waiting.ForSolve? ==> Judged(s, t, accepted, SolveAccepted, 2))
      && t.cleanupConfirmed ==
           if Returns(world) then true
           else if ConfirmationOf(world).Some? then ConfirmationOf(world).value else s.cleanupConfirmed
  {
    JudgedExactly(s, StageOutput(0, true, admissible));
  }

  // ---------------------------------------------------------------- what is launched

  function StateAfter(events: seq<NativeEvent>): FracturePilot.State {
    FracturePilot.Run(false, HeardAll(events))
  }

  lemma StateOneFurther(events: seq<NativeEvent>)
    requires events != []
    ensures StateAfter(events) ==
      FracturePilot.Step(false, StateAfter(events[..|events| - 1]), Heard(events[|events| - 1]))
  {
    assert HeardAll(events)[..|events| - 1] == HeardAll(events[..|events| - 1]);
  }

  predicate InStage(s: FracturePilot.State) {
    s.waiting.ForMesh? || s.waiting.ForSolve?
  }

  /** How many events were past when the stage under way after `k` of them began. */
  ghost function Began(events: seq<NativeEvent>, k: nat): (r: nat)
    requires k <= |events|
    ensures r <= k
  {
    if k == 0 || !InStage(StateAfter(events[..k - 1])) then k else Began(events, k - 1)
  }

  /** A stage ends after `k` events, in which its process was launched. */
  ghost predicate LaunchedAt(events: seq<NativeEvent>, k: nat) {
    k < |events| && events[k].StageRan? && InStage(StateAfter(events[..k])) && Launches(events[k].world)
  }

  /** The stages are given the owner's own signal: one that was aborted before a
      stage began is aborted when the stage first looks. */
  ghost predicate OneSignal(events: seq<NativeEvent>) {
    forall k :: 0 <= k < |events| && events[k].StageRan? && InStage(StateAfter(events[..k])) ==>
      StateAfter(events[..Began(events, k)]).aborted ==> events[k].world.abortedAtCall
  }

  lemma {:induction false} BeganLater(events: seq<NativeEvent>, from: nat, k: nat)
    requires from <= k <= |events| && !InStage(StateAfter(events[..from])) && InStage(StateAfter(events[..k]))
    ensures from <= Began(events, k)
  {
    if from < k && InStage(StateAfter(events[..k - 1])) {
      BeganLater(events, from, k - 1);
    }
  }

  lemma StaysAborted(events: seq<NativeEvent>, from: nat, to: nat)
    requires from <= to <= |events| && StateAfter(events[..from]).aborted
    ensures StateAfter(events[..to]).aborted
  {
    var before, after := HeardAll(events[..from]), HeardAll(events[from..to]);
    assert HeardAll(events[..to]) == before + after;
    FracturePilot.AbortedStays(false, before, after);
  }

  /** A run that was aborted between its stages launches no process any more, even
      if it still begins a stage. */
  lemma NoLaunchOnceAborted(events: seq<NativeEvent>, from: nat, k: nat)
    requires OneSignal(events) && from <= k <= |events|
    requires StateAfter(events[..from]).aborted && !InStage(StateAfter(events[..from]))
    ensures !LaunchedAt(events, k)
  {
    if k < |events| && events[k].StageRan? && InStage(StateAfter(events[..k])) {
      BeganLater(events, from, k);
      StaysAborted(events, from, Began(events, k));
    }
  }

  // ---------------------------------------------------------------- how often

  ghost function Launched(events: seq<NativeEvent>): nat {
    if events == [] then 0
    else Launched(events[..|events| - 1]) + if LaunchedAt(events, |events| - 1) then 1 else 0
  }

  ghost function LaunchTimes(events: seq<NativeEvent>): set<nat> {
    set k: nat | k < |events| && LaunchedAt(events, k)
  }

  lemma LaunchedBefore(events: seq<NativeEvent>, k: nat)
    requires k + 1 < |events|
    ensures LaunchedAt(events[..|events| - 1], k) <==> LaunchedAt(events, k)
  {
    assert events[..|events| - 1][..k] == events[..k];
  }

  lemma LaunchTimesGrow(events: seq<NativeEvent>)
    requires events != []
    ensures LaunchTimes(events) ==
      LaunchTimes(events[..|events| - 1]) + if LaunchedAt(events, |events| - 1) then {|events| - 1} else {}
  {
    forall k: nat | k < |events| - 1 ensures LaunchedAt(events[..|events| - 1], k) <==> LaunchedAt(events, k) {
      LaunchedBefore(events, k);
    }
  }

  /** The launches are counted one by one. */
  lemma {:induction false} LaunchedIsCount(events: seq<NativeEvent>)
    ensures Launched(events) == |LaunchTimes(events)|
  {
    if events == [] {
      assert LaunchTimes(events) == {};
    } else {
      LaunchedIsCount(events[..|events| - 1]);
      LaunchTimesGrow(events);
      assert |events| - 1 !in LaunchTimes(events[..|events| - 1]);
    }
  }

  /** One step: a stage that ran is over, and one that begins is counted. */
  lemma StageCounted(s: FracturePilot.State, e: NativeEvent)
    requires FracturePilot.Invariant(s) && KeepsNoOutput(s)
    ensures var t := FracturePilot.Step(false, s, Heard(e));
      && s.meshes + s.solves <= t.meshes + t.solves
      && (InStage(t) && !InStage(s) ==> s.meshes + s.solves < t.meshes + t.solves)
      && (InStage(s) && e.StageRan? ==> !InStage(t))
  {
    var heard := Heard(e);
    FracturePilot.StepKeepsInvariant(false, s, heard);
    match heard
    case Checked(passed) => CheckCounted(s, passed);
    case Consumed(receipt) => ReceiptCounted(s, receipt);
    case Retained(kept) => RetentionCounted(s, kept);
    case StageDone(output, errorCleanup) => EndCounted(s, output, errorCleanup);
    case _ =>
  }

  lemma CheckCounted(s: FracturePilot.State, passed: bool)
    requires FracturePilot.Invariant(s)
    ensures var t := FracturePilot.Step(false, s, Checked(passed));
      && s.meshes + s.solves <= t.meshes + t.solves
      && (InStage(t) && !InStage(s) ==> s.meshes + s.solves < t.meshes + t.solves)
  {
  }

  /** Neither a read nor a failure begins a stage or counts one. */
  ghost predicate NoStage(s: FracturePilot.State, t: FracturePilot.State) {
    t.meshes == s.meshes && t.solves == s.solves && !InStage(t)
  }

  lemma VerifyingIsNoStage(s: FracturePilot.State, round: nat)
    ensures NoStage(s, FracturePilot.Verify(s, round)) && NoStage(s, FracturePilot.Failed(s))
  {
  }

  lemma ReceiptCounted(s: FracturePilot.State, receipt: bool)
    ensures var t := FracturePilot.Step(false, s, Consumed(receipt)); NoStage(s, t) || t == s
  {
    VerifyingIsNoStage(s, 0);
    VerifyingIsNoStage(s.(log := s.log + [ExecutionConsumed(s.binding)]), 0);
  }

  lemma RetentionCounted(s: FracturePilot.State, kept: bool)
    requires KeepsNoOutput(s)
    ensures var t := FracturePilot.AfterRetained(s, kept);
      && s.meshes + s.solves <= t.meshes + t.solves
      && (InStage(t) && !InStage(s) ==> s.meshes + s.solves < t.meshes + t.solves)
  {
  }

  lemma JudgedCounted(s: FracturePilot.State, output: StageOutput)
    ensures NoStage(s, FracturePilot.JudgeMesh(s, output)) && NoStage(s, FracturePilot.JudgeSolve(s, output))
  {
    var noted := s.(cleanupConfirmed := output.cleanupConfirmed);
    VerifyingIsNoStage(noted, 1);
    VerifyingIsNoStage(noted.(log := s.log + [MeshAccepted]), 1);
    VerifyingIsNoStage(noted.(log := s.log + [SolveAccepted]), 2);
  }

  lemma EndCounted(s: FracturePilot.State, output: Option<StageOutput>, errorCleanup: Option<bool>)
    ensures var t := FracturePilot.Step(false, s, StageDone(output, errorCleanup));
      NoStage(s, t) || (t == s && !InStage(s))
  {
    match output
    case Some(value) => JudgedCounted(s, value);
    case None =>
      VerifyingIsNoStage(s, 0);
      if errorCleanup.Some? {
        VerifyingIsNoStage(s.(cleanupConfirmed := errorCleanup.value), 0);
      }
  }

  /** The owner counts attempts: it never launches more processes than it counts
      stages, and so never more than two. */
  lemma {:induction false} LaunchesAreCounted(events: seq<NativeEvent>)
    ensures var s := StateAfter(events);
      Launched(events) + (if InStage(s) then 1 else 0) <= s.meshes + s.solves <= 2
  {
    FracturePilot.Always(false, HeardAll(events));
    if events != [] {
      var init, last := events[..|events| - 1], events[|events| - 1];
      LaunchesAreCounted(init);
      StateOneFurther(events);
      FracturePilot.Always(false, HeardAll(init));
      NeverKeepsOutput(HeardAll(init));
      StageCounted(StateAfter(init), last);
    }
  }
}
