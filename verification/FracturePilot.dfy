/** The owner of the stationary-crack pilot: one attempt, two consumed approvals,
    a mesh and a solve, and evidence that is checked again at every use. `cancel`,
    `dispose` and the caller's abort signal can intervene at every await. */
module FracturePilot {
  import opened Wrappers

  datatype Outcome = NotStarted | InProgress | Complete | FailedOutcome | CancelledOutcome

  /** What the owner has done on the way to evidence, in order. */
  datatype Milestone =
    | TransferConsumed(binding: string)
    | ExecutionConsumed(binding: string)
    | Verified(binding: string)
    | MeshStarted
    | MeshAccepted
    | SolveStarted
    | SolveAccepted
    | Stored(binding: string)

  /** The four awaits of a verification, each with what was asked before it. */
  datatype VerifyStep = FirstRead | TransferCheck | ExecutionCheck | SecondRead

  datatype Waiting =
    | Idle
    | ForModel
    | ForTransfer
    | ForExecution
    | ForVerification(round: nat, step: VerifyStep)
    | ForStartRetained
    | ForMesh
    | ForMeshRetained(output: StageOutput)
    | ForSolve
    | ForSolveRetained(output: StageOutput)
    | ForEvidenceRetained
    | ForFailureRetained
    | Ended

  /** What a stage returned; `admissible` sums up the checks of its output. */
  datatype StageOutput = StageOutput(code: int, cleanupConfirmed: bool, admissible: bool)

  /** `retainsStages`: a controlled provider's stage outputs are retained by the owner. */
  datatype State = State(
    attempted: bool, disposed: bool, aborted: bool, outcome: Outcome, meshes: nat, solves: nat, cleanupConfirmed: bool,
    record: bool, waiting: Waiting, binding: string, log: seq<Milestone>)

  const INITIAL := State(false, false, false, NotStarted, 0, 0, true, false, Idle, "", [])

  /** A missing stage output is an error that may say whether the clean-up was confirmed. */
  datatype Event =
    | RunCalled(signalAborted: bool, mayStart: bool)
    | ModelRead(binding: Option<string>)
    | Consumed(receipt: bool)
    | Checked(passed: bool)
    | Retained(kept: bool)
    | StageDone(output: Option<StageOutput>, errorCleanup: Option<bool>)
    | SignalAborted
    | CancelCalled
    | DisposeCalled

  /** The failure path: the outcome is noted, then retained. */
  function Failed(s: State): State {
    s.(outcome := if s.aborted then CancelledOutcome else FailedOutcome, waiting := ForFailureRetained)
  }

  /** A verification asks whether the owner is still active before each of its two
      reads, not after. */
  function BeginRead(s: State, round: nat, step: VerifyStep): State {
    if s.disposed || s.aborted then Failed(s) else s.(waiting := ForVerification(round, step))
  }

  function Verify(s: State, round: nat): State {
    BeginRead(s, round, FirstRead)
  }

  function AfterVerification(s: State, round: nat): State {
    var v := s.(log := s.log + [Verified(s.binding)]);
    match round
    case 0 => v.(waiting := ForStartRetained)
    case 1 => v.(solves := v.solves + 1, log := v.log + [SolveStarted], waiting := ForSolve)
    case _ => v.(waiting := ForEvidenceRetained)
  }

  function AfterCheck(s: State, round: nat, step: VerifyStep): State {
    match step
    case FirstRead => s.(waiting := ForVerification(round, TransferCheck))
    case TransferCheck => s.(waiting := ForVerification(round, ExecutionCheck))
    case ExecutionCheck => BeginRead(s, round, SecondRead)
    case SecondRead => AfterVerification(s, round)
  }

  predicate StageAccepted(s: State, output: StageOutput) {
    !s.aborted && output.code == 0 && output.cleanupConfirmed && output.admissible
  }

  function JudgeMesh(s: State, output: StageOutput): State {
    var noted := s.(cleanupConfirmed := output.cleanupConfirmed);
    if StageAccepted(s, output) then Verify(noted.(log := s.log + [MeshAccepted]), 1) else Failed(noted)
  }

  function JudgeSolve(s: State, output: StageOutput): State {
    var noted := s.(cleanupConfirmed := output.cleanupConfirmed);
    if StageAccepted(s, output) then Verify(noted.(log := s.log + [SolveAccepted]), 2) else Failed(noted)
  }

  function StageFailed(s: State, errorCleanup: Option<bool>): State {
    Failed(if errorCleanup.Some? then s.(cleanupConfirmed := errorCleanup.value) else s)
  }

  function AfterRetained(s: State, kept: bool): State {
    match s.waiting
    case ForStartRetained =>
      if !kept then Failed(s) else s.(meshes := s.meshes + 1, log := s.log + [MeshStarted], waiting := ForMesh)
    case ForMeshRetained(output) => if !kept then Failed(s) else JudgeMesh(s, output)
    case ForSolveRetained(output) => if !kept then Failed(s) else JudgeSolve(s, output)
    case ForEvidenceRetained =>
      if !kept then Failed(s)
      else s.(record := true, outcome := Complete, log := s.log + [Stored(s.binding)], waiting := Ended)
    case ForFailureRetained => s.(waiting := Ended)
    case _ => s
  }

  /** `retainsStages` is fixed per owner. */
  function Step(retainsStages: bool, s: State, e: Event): State {
    match e
    case RunCalled(signalAborted, mayStart) =>
      if s.attempted || s.disposed then s
      else
        var begun := s.(attempted := true, aborted := s.aborted || signalAborted);
        if !mayStart || begun.aborted then Failed(begun) else begun.(waiting := ForModel)
    case ModelRead(binding) =>
      if !s.waiting.ForModel? then s
      else if binding.None? then Failed(s)
      else s.(binding := binding.value, outcome := InProgress, waiting := ForTransfer)
    case Consumed(receipt) =>
      (match s.waiting
       case ForTransfer =>
         if receipt then s.(log := s.log + [TransferConsumed(s.binding)], waiting := ForExecution) else Failed(s)
       case ForExecution =>
         if receipt then Verify(s.(log := s.log + [ExecutionConsumed(s.binding)]), 0) else Failed(s)
       case _ => s)
    case Checked(passed) =>
      if !s.waiting.ForVerification? then s
      else if passed then AfterCheck(s, s.waiting.round, s.waiting.step) else Failed(s)
    case Retained(kept) => AfterRetained(s, kept)
    case StageDone(output, errorCleanup) =>
      (match s.waiting
       case ForMesh =>
         if output.None? then StageFailed(s, errorCleanup)
         else if retainsStages then s.(waiting := ForMeshRetained(output.value))
         else JudgeMesh(s, output.value)
       case ForSolve =>
         if output.None? then StageFailed(s, errorCleanup)
         else if retainsStages then s.(waiting := ForSolveRetained(output.value))
         else JudgeSolve(s, output.value)
       case _ => s)
    case SignalAborted => if s.attempted && !s.waiting.Ended? then s.(aborted := true) else s
    case CancelCalled => s.(aborted := true, record := false)
    case DisposeCalled => s.(disposed := true, aborted := true, record := false)
  }

  function Run(retainsStages: bool, events: seq<Event>): State {
    if events == [] then INITIAL
    else Step(retainsStages, Run(retainsStages, events[..|events| - 1]), events[|events| - 1])
  }

  // ---------------------------------------------------------------- the protocol

  /** Everything in the only order in which it can happen. */
  function MilestoneAt(b: string, k: nat): Milestone {
    if k == 0 then TransferConsumed(b)
    else if k == 1 then ExecutionConsumed(b)
    else if k == 2 || k == 5 || k == 8 then Verified(b)
    else if k == 3 then MeshStarted
    else if k == 4 then MeshAccepted
    else if k == 6 then SolveStarted
    else if k == 7 then SolveAccepted
    else Stored(b)
  }

  ghost predicate InOrder(b: string, log: seq<Milestone>) {
    |log| <= 10 && forall k :: 0 <= k < |log| ==> log[k] == MilestoneAt(b, k)
  }

  /** How much of the protocol is behind the owner while it waits. */
  function Progress(w: Waiting): Option<nat> {
    match w
    case Idle => Some(0)
    case ForModel => Some(0)
    case ForTransfer => Some(0)
    case ForExecution => Some(1)
    case ForVerification(round, _) => Some(if round == 0 then 2 else if round == 1 then 5 else 8)
    case ForStartRetained => Some(3)
    case ForMesh => Some(4)
    case ForMeshRetained(_) => Some(4)
    case ForSolve => Some(7)
    case ForSolveRetained(_) => Some(7)
    case ForEvidenceRetained => Some(9)
    case _ => None
  }

  ghost predicate OnProtocol(s: State) {
    && InOrder(s.binding, s.log)
    && (Progress(s.waiting).Some? ==> |s.log| == Progress(s.waiting).value)
    && (s.waiting.ForVerification? ==> s.waiting.round <= 2)
    && s.meshes == (if |s.log| >= 4 then 1 else 0)
    && s.solves == (if |s.log| >= 7 then 1 else 0)
  }

  predicate Quarantined(s: State) {
    s.outcome.FailedOutcome? || s.outcome.CancelledOutcome?
  }

  ghost predicate Invariant(s: State) {
    && OnProtocol(s)
    && (s.attempted <==> !s.waiting.Idle?)
    && (s.outcome.Complete? <==> |s.log| == 10)
    && (s.outcome.Complete? ==> s.waiting.Ended? && s.cleanupConfirmed)
    && (s.waiting.ForVerification? && s.waiting.round > 0 ==> s.cleanupConfirmed)
    && (s.waiting.ForSolve? || s.waiting.ForEvidenceRetained? ==> s.cleanupConfirmed)
    && (s.disposed ==> s.aborted)
    && (s.record ==> s.outcome.Complete?)
    && (s.outcome.Complete? && !s.aborted ==> s.record)
    && (s.waiting.ForModel? || s.waiting.Idle? ==> s.log == [])
    && (Quarantined(s) ==> s.waiting.ForFailureRetained? || s.waiting.Ended?)
    && (s.waiting.ForFailureRetained? ==> Quarantined(s))
  }

  /** Both reads passed: the log goes on by the verification and, before the
      solve, by its start. */
  lemma VerifiedKeeps(s: State)
    requires Invariant(s) && s.waiting.ForVerification?
    ensures Invariant(AfterVerification(s, s.waiting.round))
  {
  }

  lemma CheckedKeeps(retainsStages: bool, s: State, passed: bool)
    requires Invariant(s)
    ensures Invariant(Step(retainsStages, s, Checked(passed)))
  {
    if s.waiting.ForVerification? && passed {
      if s.waiting.step.SecondRead? {
        VerifiedKeeps(s);
      } else {
        VerificationGoesOn(s);
      }
    }
  }

  lemma VerificationGoesOn(s: State)
    requires Invariant(s) && s.waiting.ForVerification? && !s.waiting.step.SecondRead?
    ensures Invariant(AfterCheck(s, s.waiting.round, s.waiting.step))
  {
  }

  lemma ConsumedKeeps(retainsStages: bool, s: State, receipt: bool)
    requires Invariant(s)
    ensures Invariant(Step(retainsStages, s, Consumed(receipt)))
  {
  }

  lemma JudgeKeeps(s: State, output: StageOutput)
    requires Invariant(s)
    ensures s.waiting.ForMesh? || s.waiting.ForMeshRetained? ==> Invariant(JudgeMesh(s, output))
    ensures s.waiting.ForSolve? || s.waiting.ForSolveRetained? ==> Invariant(JudgeSolve(s, output))
  {
  }

  lemma StartKeeps(s: State, kept: bool)
    requires Invariant(s) && s.waiting.ForStartRetained?
    ensures Invariant(AfterRetained(s, kept))
  {
  }

  lemma StoredKeeps(s: State, kept: bool)
    requires Invariant(s) && s.waiting.ForEvidenceRetained?
    ensures Invariant(AfterRetained(s, kept))
  {
  }

  lemma RetainedKeeps(retainsStages: bool, s: State, kept: bool)
    requires Invariant(s)
    ensures Invariant(Step(retainsStages, s, Retained(kept)))
  {
    match s.waiting
    case ForStartRetained => StartKeeps(s, kept);
    case ForMeshRetained(output) => JudgeKeeps(s, output);
    case ForSolveRetained(output) => JudgeKeeps(s, output);
    case ForEvidenceRetained => StoredKeeps(s, kept);
    case _ =>
  }

  lemma StageDoneKeeps(retainsStages: bool, s: State, output: Option<StageOutput>, errorCleanup: Option<bool>)
    requires Invariant(s)
    ensures Invariant(Step(retainsStages, s, StageDone(output, errorCleanup)))
  {
  }

  lemma StepKeepsInvariant(retainsStages: bool, s: State, e: Event)
    requires Invariant(s)
    ensures Invariant(Step(retainsStages, s, e))
  {
    match e
    case Checked(passed) => CheckedKeeps(retainsStages, s, passed);
    case Consumed(receipt) => ConsumedKeeps(retainsStages, s, receipt);
    case Retained(kept) => RetainedKeeps(retainsStages, s, kept);
    case StageDone(output, errorCleanup) => StageDoneKeeps(retainsStages, s, output, errorCleanup);
    case _ =>
  }

  lemma {:induction false} Always(retainsStages: bool, events: seq<Event>)
    ensures Invariant(Run(retainsStages, events))
  {
    if events != [] {
      Always(retainsStages, events[..|events| - 1]);
      StepKeepsInvariant(retainsStages, Run(retainsStages, events[..|events| - 1]), events[|events| - 1]);
    }
  }

  // ---------------------------------------------------------------- what follows for every history

  /** One mesh and one solve at most, the solve never without the mesh, and
      everything in protocol order under one binding. */
  lemma InProtocolOrder(retainsStages: bool, events: seq<Event>)
    ensures var s := Run(retainsStages, events);
      s.solves <= s.meshes <= 1 && InOrder(s.binding, s.log)
  {
    Always(retainsStages, events);
  }

  /** Before a solve: both approvals consumed in order, the binding verified, the
      mesh accepted with confirmed clean-up, and the same binding verified again. */
  lemma SolveComesLast(retainsStages: bool, events: seq<Event>)
    requires Run(retainsStages, events).solves > 0
    ensures var s := Run(retainsStages, events);
      [TransferConsumed(s.binding), ExecutionConsumed(s.binding), Verified(s.binding), MeshStarted, MeshAccepted,
       Verified(s.binding), SolveStarted] <= s.log
  {
    Always(retainsStages, events);
  }

  lemma VerifyStaysAborted(s: State, round: nat, step: VerifyStep)
    requires s.aborted
    ensures BeginRead(s, round, step).aborted && AfterCheck(s, round, step).aborted
  {
  }

  lemma RetainedStaysAborted(s: State, kept: bool)
    requires s.aborted
    ensures AfterRetained(s, kept).aborted
  {
  }

  lemma JudgeStaysAborted(s: State, output: StageOutput)
    requires s.aborted
    ensures JudgeMesh(s, output).aborted && JudgeSolve(s, output).aborted
  {
  }

  lemma StepStaysAborted(retainsStages: bool, s: State, e: Event)
    requires s.aborted
    ensures Step(retainsStages, s, e).aborted
  {
    match e
    case Checked(passed) =>
      if s.waiting.ForVerification? {
        VerifyStaysAborted(s, s.waiting.round, s.waiting.step);
      }
    case Retained(kept) => RetainedStaysAborted(s, kept);
    case StageDone(output, _) =>
      if output.Some? {
        JudgeStaysAborted(s, output.value);
      }
    case _ =>
  }

  lemma {:induction false} AbortedStays(retainsStages: bool, before: seq<Event>, after: seq<Event>)
    requires Run(retainsStages, before).aborted
    ensures Run(retainsStages, before + after).aborted
  {
    if after == [] {
      assert before + after == before;
    } else {
      var init := before + after[..|after| - 1];
      AbortedStays(retainsStages, before, after[..|after| - 1]);
      assert (before + after)[..|before + after| - 1] == init;
      StepStaysAborted(retainsStages, Run(retainsStages, init), after[|after| - 1]);
    }
  }

  /** Whether an evidence call gets past its first checks. */
  predicate EvidenceBegins(s: State, expired: bool) {
    s.record && !expired && !s.disposed && !s.aborted
  }

  /** No evidence call begun after a cancel or a disposal succeeds, not even if
      the run stores its handle later than that. */
  lemma NoEvidenceAfterCancel(retainsStages: bool, before: seq<Event>, cancel: Event, after: seq<Event>, expired: bool)
    requires cancel.CancelCalled? || cancel.DisposeCalled?
    ensures !EvidenceBegins(Run(retainsStages, before + [cancel] + after), expired)
  {
    assert (before + [cancel])[..|before|] == before;
    AbortedStays(retainsStages, before + [cancel], after);
  }

  /** Evidence is there exactly while the attempt is complete, nobody has cancelled or
      disposed of it, and its time is not over. */
  lemma EvidenceExactly(retainsStages: bool, events: seq<Event>, expired: bool)
    ensures var s := Run(retainsStages, events);
      EvidenceBegins(s, expired) <==> s.outcome.Complete? && !s.aborted && !expired
  {
    Always(retainsStages, events);
  }

  /** The caller's signal is heard while an attempt is under way; before and after it
      changes nothing, so evidence outlives it. */
  lemma SignalHeardExactly(retainsStages: bool, events: seq<Event>, expired: bool)
    ensures var s, t := Run(retainsStages, events), Run(retainsStages, events + [SignalAborted]);
      && (t.aborted <==> s.aborted || (s.attempted && !s.waiting.Ended?)) && t == s.(aborted := t.aborted)
      && (EvidenceBegins(s, expired) ==> EvidenceBegins(t, expired))
  {
    Always(retainsStages, events);
    RunOne(retainsStages, events, SignalAborted);
  }

  /** Complete means: one mesh, one solve, clean-up confirmed, all ten milestones. */
  lemma CompleteMeansAll(retainsStages: bool, events: seq<Event>)
    requires Run(retainsStages, events).outcome.Complete?
    ensures var s := Run(retainsStages, events);
      s.meshes == 1 && s.solves == 1 && s.cleanupConfirmed && |s.log| == 10 && InOrder(s.binding, s.log)
  {
    Always(retainsStages, events);
  }

  // ---------------------------------------------------------------- starts after an abort

  /** A verification asks before its second read, not after it: an abort during
      that read does not keep the next stage from being started. */
  predicate MeshUnderWay(w: Waiting) {
    w == ForVerification(0, SecondRead) || w == ForStartRetained
  }

  predicate SolveUnderWay(w: Waiting) {
    w == ForVerification(1, SecondRead)
  }

  ghost predicate NoMeshFrom(s: State) {
    Invariant(s) && s.aborted && s.meshes == 0 && !MeshUnderWay(s.waiting)
  }

  ghost predicate NoSolveFrom(s: State) {
    Invariant(s) && s.aborted && s.solves == 0 && !SolveUnderWay(s.waiting)
  }

  lemma NoMeshStays(retainsStages: bool, s: State, e: Event)
    requires NoMeshFrom(s)
    ensures NoMeshFrom(Step(retainsStages, s, e))
  {
    StepKeepsInvariant(retainsStages, s, e);
    StepStaysAborted(retainsStages, s, e);
  }

  lemma NoSolveStays(retainsStages: bool, s: State, e: Event)
    requires NoSolveFrom(s)
    ensures NoSolveFrom(Step(retainsStages, s, e))
  {
    StepKeepsInvariant(retainsStages, s, e);
    StepStaysAborted(retainsStages, s, e);
  }

  lemma {:induction false} NoMeshOnward(retainsStages: bool, before: seq<Event>, after: seq<Event>)
    requires NoMeshFrom(Run(retainsStages, before))
    ensures Run(retainsStages, before + after).meshes == 0 && NoMeshFrom(Run(retainsStages, before + after))
  {
    if after == [] {
      assert before + after == before;
    } else {
      var init := after[..|after| - 1];
      NoMeshOnward(retainsStages, before, init);
      RunOne(retainsStages, before + init, after[|after| - 1]);
      LastApart(before, after);
      NoMeshStays(retainsStages, Run(retainsStages, before + init), after[|after| - 1]);
    }
  }

  lemma {:induction false} NoSolveOnward(retainsStages: bool, before: seq<Event>, after: seq<Event>)
    requires NoSolveFrom(Run(retainsStages, before))
    ensures Run(retainsStages, before + after).solves == 0 && NoSolveFrom(Run(retainsStages, before + after))
  {
    if after == [] {
      assert before + after == before;
    } else {
      var init := after[..|after| - 1];
      NoSolveOnward(retainsStages, before, init);
      RunOne(retainsStages, before + init, after[|after| - 1]);
      LastApart(before, after);
      NoSolveStays(retainsStages, Run(retainsStages, before + init), after[|after| - 1]);
    }
  }

  lemma MeshStillStarts(retainsStages: bool, before: seq<Event>)
    requires MeshUnderWay(Run(retainsStages, before).waiting)
    ensures exists after :: Run(retainsStages, before + after).meshes > 0
  {
    if Run(retainsStages, before).waiting.ForStartRetained? {
      RunOne(retainsStages, before, Retained(true));
      assert Run(retainsStages, before + [Retained(true)]).meshes > 0;
    } else {
      RunOne(retainsStages, before, Checked(true));
      RunOne(retainsStages, before + [Checked(true)], Retained(true));
      assert before + [Checked(true)] + [Retained(true)] == before + ([Checked(true)] + [Retained(true)]);
      assert Run(retainsStages, before + ([Checked(true)] + [Retained(true)])).meshes > 0;
    }
  }

  /** An aborted run that has not meshed yet can still start the mesh exactly if
      the abort fell into the second read of its first verification or into the
      retention of its start. */
  lemma AbortedMeshExactly(retainsStages: bool, before: seq<Event>)
    requires Run(retainsStages, before).aborted && Run(retainsStages, before).meshes == 0
    ensures (exists after :: Run(retainsStages, before + after).meshes > 0) <==>
      MeshUnderWay(Run(retainsStages, before).waiting)
  {
    var s := Run(retainsStages, before);
    Always(retainsStages, before);
    if MeshUnderWay(s.waiting) {
      MeshStillStarts(retainsStages, before);
    } else {
      forall after ensures Run(retainsStages, before + after).meshes == 0 {
        NoMeshOnward(retainsStages, before, after);
      }
    }
  }

  /** And it can still start the solve exactly if the abort fell into the second
      read of the verification between mesh and solve. */
  lemma AbortedSolveExactly(retainsStages: bool, before: seq<Event>)
    requires Run(retainsStages, before).aborted && Run(retainsStages, before).solves == 0
    ensures (exists after :: Run(retainsStages, before + after).solves > 0) <==>
      SolveUnderWay(Run(retainsStages, before).waiting)
  {
    Always(retainsStages, before);
    if SolveUnderWay(Run(retainsStages, before).waiting) {
      RunOne(retainsStages, before, Checked(true));
      assert Run(retainsStages, before + [Checked(true)]).solves > 0;
    } else {
      forall after ensures Run(retainsStages, before + after).solves == 0 {
        NoSolveOnward(retainsStages, before, after);
      }
    }
  }

  /** The three answers before the second read of a verification. */
  const UP_TO_SECOND_READ: seq<Event> := [Checked(true), Checked(true), Checked(true)]

  lemma CheckPassed(before: seq<Event>, round: nat, step: VerifyStep, next: VerifyStep)
    requires var s := Run(false, before);
      s.waiting == ForVerification(round, step) && !s.aborted && !s.disposed
    requires (step, next) in {(FirstRead, TransferCheck), (TransferCheck, ExecutionCheck), (ExecutionCheck, SecondRead)}
    ensures Run(false, before + [Checked(true)]) == Run(false, before).(waiting := ForVerification(round, next))
  {
    RunOne(false, before, Checked(true));
  }

  lemma UpToSecondRead(before: seq<Event>, round: nat)
    requires var s := Run(false, before);
      s.waiting == ForVerification(round, FirstRead) && !s.aborted && !s.disposed
    ensures Run(false, before + UP_TO_SECOND_READ) == Run(false, before).(waiting := ForVerification(round, SecondRead))
  {
    var passed := Checked(true);
    CheckPassed(before, round, FirstRead, TransferCheck);
    CheckPassed(before + [passed], round, TransferCheck, ExecutionCheck);
    CheckPassed(before + [passed] + [passed], round, ExecutionCheck, SecondRead);
    assert before + [passed] + [passed] + [passed] == before + UP_TO_SECOND_READ;
  }

  /** A run as far as its first verification. */
  function UpToVerification(binding: string): seq<Event> {
    [RunCalled(false, true), ModelRead(Some(binding)), Consumed(true), Consumed(true)]
  }

  lemma ReachesVerification(b: string)
    ensures Run(false, UpToVerification(b)) ==
      State(true, false, false, InProgress, 0, 0, true, false, ForVerification(0, FirstRead), b,
            [TransferConsumed(b), ExecutionConsumed(b)])
  {
    var all := UpToVerification(b);
    RunOne(false, [], all[0]);
    RunOne(false, [] + [all[0]], all[1]);
    RunOne(false, [] + [all[0]] + [all[1]], all[2]);
    RunOne(false, [] + [all[0]] + [all[1]] + [all[2]], all[3]);
    assert [] + [all[0]] + [all[1]] + [all[2]] + [all[3]] == all;
  }

  lemma CancelledDuringRead(reading: seq<Event>)
    requires Run(false, reading).waiting == ForVerification(0, SecondRead)
    ensures var s := Run(false, reading + [CancelCalled] + [Checked(true)] + [Retained(true)]);
      s.aborted && s.meshes == Run(false, reading).meshes + 1 && s.waiting.ForMesh?
  {
    RunOne(false, reading, CancelCalled);
    RunOne(false, reading + [CancelCalled], Checked(true));
    RunOne(false, reading + [CancelCalled] + [Checked(true)], Retained(true));
  }

  /** Such a history: cancelled during the second read, the owner still starts the
      mesh of the run. */
  lemma AbortedMeshStart(b: string)
    ensures var s := Run(false,
      UpToVerification(b) + UP_TO_SECOND_READ + [CancelCalled] + [Checked(true)] + [Retained(true)]);
      s.aborted && s.meshes == 1 && s.waiting.ForMesh?
  {
    ReachesVerification(b);
    UpToSecondRead(UpToVerification(b), 0);
    CancelledDuringRead(UpToVerification(b) + UP_TO_SECOND_READ);
  }

  /** A mesh that is accepted. */
  const MESHED: seq<Event> := [Checked(true), Retained(true), StageDone(Some(StageOutput(0, true, true)), None)]

  lemma MeshIsAccepted(reading: seq<Event>)
    requires var s := Run(false, reading);
      s.waiting == ForVerification(0, SecondRead) && !s.aborted && !s.disposed
    ensures var s := Run(false, reading + MESHED);
      s.waiting == ForVerification(1, FirstRead) && !s.aborted && !s.disposed && s.solves == Run(false, reading).solves
  {
    RunOne(false, reading, MESHED[0]);
    RunOne(false, reading + [MESHED[0]], MESHED[1]);
    RunOne(false, reading + [MESHED[0]] + [MESHED[1]], MESHED[2]);
    assert reading + [MESHED[0]] + [MESHED[1]] + [MESHED[2]] == reading + MESHED;
  }

  /** And so on to the second read of the verification after it. */
  function UpToSecondVerification(binding: string): seq<Event> {
    UpToVerification(binding) + UP_TO_SECOND_READ + MESHED + UP_TO_SECOND_READ
  }

  lemma ReachesSecondRead(b: string)
    ensures var s := Run(false, UpToSecondVerification(b));
      s.waiting == ForVerification(1, SecondRead) && !s.aborted && !s.disposed && s.solves == 0
  {
    ReachesVerification(b);
    UpToSecondRead(UpToVerification(b), 0);
    MeshIsAccepted(UpToVerification(b) + UP_TO_SECOND_READ);
    UpToSecondRead(UpToVerification(b) + UP_TO_SECOND_READ + MESHED, 1);
  }

  /** And cancelled during that read, it still starts the solve. */
  lemma AbortedSolveStart(b: string)
    ensures var s := Run(false, UpToSecondVerification(b) + [CancelCalled] + [Checked(true)]);
      s.aborted && s.solves == 1 && s.waiting.ForSolve?
  {
    ReachesSecondRead(b);
    RunOne(false, UpToSecondVerification(b), CancelCalled);
    RunOne(false, UpToSecondVerification(b) + [CancelCalled], Checked(true));
  }

  /** A solve that is accepted, and the evidence put on record. */
  const SOLVED: seq<Event> := [Checked(true), StageDone(Some(StageOutput(0, true, true)), None)]
  const STORED: seq<Event> := [Checked(true), Retained(true)]

  lemma SolveIsAccepted(reading: seq<Event>)
    requires var s := Run(false, reading);
      s.waiting == ForVerification(1, SecondRead) && !s.aborted && !s.disposed
    ensures var s := Run(false, reading + SOLVED);
      s.waiting == ForVerification(2, FirstRead) && !s.aborted && !s.disposed
  {
    RunOne(false, reading, SOLVED[0]);
    RunOne(false, reading + [SOLVED[0]], SOLVED[1]);
    assert reading + [SOLVED[0]] + [SOLVED[1]] == reading + SOLVED;
  }

  /** An attempt that nobody disturbs, to its end. */
  function UpToEvidence(binding: string): seq<Event> {
    UpToSecondVerification(binding) + SOLVED + UP_TO_SECOND_READ + STORED
  }

  lemma EvidenceIsStored(reading: seq<Event>)
    requires var s := Run(false, reading);
      s.waiting == ForVerification(2, SecondRead) && !s.aborted && !s.disposed
    ensures var s := Run(false, reading + STORED);
      s.outcome.Complete? && EvidenceBegins(s, false)
  {
    RunOne(false, reading, STORED[0]);
    RunOne(false, reading + [STORED[0]], STORED[1]);
    assert reading + [STORED[0]] + [STORED[1]] == reading + STORED;
  }

  /** Such an attempt ends in evidence. */
  lemma UndisturbedAttempt(b: string)
    ensures var s := Run(false, UpToEvidence(b));
      EvidenceBegins(s, false) && s.meshes == s.solves == 1 && |s.log| == 10 && InOrder(s.binding, s.log)
  {
    ReachesSecondRead(b);
    SolveIsAccepted(UpToSecondVerification(b));
    UpToSecondRead(UpToSecondVerification(b) + SOLVED, 2);
    EvidenceIsStored(UpToSecondVerification(b) + SOLVED + UP_TO_SECOND_READ);
    CompleteMeansAll(false, UpToEvidence(b));
  }

  // ---------------------------------------------------------------- what the calls come to

  lemma RunOne(retainsStages: bool, history: seq<Event>, e: Event)
    ensures Run(retainsStages, history + [e]) == Step(retainsStages, Run(retainsStages, history), e)
  {
    assert (history + [e])[..|history|] == history;
  }

  /** Whatever follows, no evidence call gets past its first checks. */
  ghost predicate NoEvidenceEver(retainsStages: bool, history: seq<Event>) {
    forall after, expired :: !EvidenceBegins(Run(retainsStages, history + after), expired)
  }

  lemma AbortedForGood(retainsStages: bool, history: seq<Event>)
    requires Run(retainsStages, history).aborted
    ensures NoEvidenceEver(retainsStages, history)
  {
    forall after, expired ensures !EvidenceBegins(Run(retainsStages, history + after), expired) {
      AbortedStays(retainsStages, history, after);
    }
  }

  lemma QuarantineStays(retainsStages: bool, s: State, e: Event)
    requires Invariant(s) && Quarantined(s)
    ensures Quarantined(Step(retainsStages, s, e))
  {
  }

  lemma {:induction false} QuarantinedOnward(retainsStages: bool, before: seq<Event>, after: seq<Event>)
    requires Quarantined(Run(retainsStages, before))
    ensures Quarantined(Run(retainsStages, before + after)) && !Run(retainsStages, before + after).record
  {
    Always(retainsStages, before + after);
    if after == [] {
      assert before + after == before;
    } else {
      var init := after[..|after| - 1];
      QuarantinedOnward(retainsStages, before, init);
      Always(retainsStages, before + init);
      RunOne(retainsStages, before + init, after[|after| - 1]);
      LastApart(before, after);
      QuarantineStays(retainsStages, Run(retainsStages, before + init), after[|after| - 1]);
    }
  }

  lemma QuarantinedForGood(retainsStages: bool, history: seq<Event>)
    requires Quarantined(Run(retainsStages, history))
    ensures NoEvidenceEver(retainsStages, history)
  {
    forall after, expired ensures !EvidenceBegins(Run(retainsStages, history + after), expired) {
      QuarantinedOnward(retainsStages, history, after);
    }
  }

  lemma StoredOutcome(s: State)
    requires Invariant(s) && s.waiting.ForEvidenceRetained?
    ensures var t := AfterRetained(s, true);
      t.outcome.Complete? && |t.log| == 10 && InOrder(t.binding, t.log) && t.meshes == t.solves == 1 &&
        t.cleanupConfirmed
  {
  }

  /** What an answer to one await of a verification comes to. */
  lemma CheckOutcome(retainsStages: bool, s: State, passed: bool)
    requires Invariant(s) && s.waiting.ForVerification?
    ensures var t := Step(retainsStages, s, Checked(passed));
      && (!passed ==> Quarantined(t) && t.waiting.ForFailureRetained?)
      && t.solves == s.solves + (if SolveUnderWay(s.waiting) && passed then 1 else 0)
      && t.meshes == s.meshes
      && (t.waiting.ForSolve? ==> t.solves == t.meshes == 1 && |t.log| == 7) && InOrder(t.binding, t.log)
  {
    CheckedKeeps(retainsStages, s, passed);
  }

  /** What an await that passed leads to. */
  ghost predicate GoesOn(s: State, t: State) {
    && s.waiting.ForVerification?
    && var round, step := s.waiting.round, s.waiting.step;
       && (step.FirstRead? ==> t.waiting == ForVerification(round, TransferCheck))
       && (step.TransferCheck? ==> t.waiting == ForVerification(round, ExecutionCheck))
       && (step.ExecutionCheck? && (s.disposed || s.aborted) ==>
             t.outcome == (if s.aborted then CancelledOutcome else FailedOutcome) && t.waiting.ForFailureRetained?)
       && (step.ExecutionCheck? && !s.disposed && !s.aborted ==> t.waiting == ForVerification(round, SecondRead))
       && (step.SecondRead? && round == 0 ==> t.waiting.ForStartRetained? && |t.log| == 3)
       && (step.SecondRead? && round == 1 ==> t.waiting.ForSolve? && |t.log| == 7)
       && (step.SecondRead? && round == 2 ==> t.waiting.ForEvidenceRetained? && |t.log| == 9)
  }

  lemma CheckGoesOn(retainsStages: bool, s: State)
    requires Invariant(s) && s.waiting.ForVerification?
    ensures var t := Step(retainsStages, s, Checked(true));
      GoesOn(s, t) && !t.record && t.cleanupConfirmed == s.cleanupConfirmed
  {
  }

  lemma Hopeless(retainsStages: bool, history: seq<Event>)
    ensures Quarantined(Run(retainsStages, history)) || Run(retainsStages, history).aborted ==>
      NoEvidenceEver(retainsStages, history)
  {
    if Quarantined(Run(retainsStages, history)) {
      QuarantinedForGood(retainsStages, history);
    } else if Run(retainsStages, history).aborted {
      AbortedForGood(retainsStages, history);
    }
  }

  // ---------------------------------------------------------------- the owner as it is kept

  /** `history` is what has happened to the owner so far. */
  class Owner {
    const retainsStages: bool
    var attempted: bool
    var disposed: bool
    var aborted: bool
    var outcome: Outcome
    var meshes: nat
    var solves: nat
    var cleanupConfirmed: bool
    var record: bool
    ghost var waiting: Waiting
    ghost var binding: string
    ghost var log: seq<Milestone>
    ghost var history: seq<Event>

    ghost function Now(): State
      reads this
    {
      State(attempted, disposed, aborted, outcome, meshes, solves, cleanupConfirmed, record, waiting, binding, log)
    }

    ghost predicate Valid()
      reads this
    {
      Now() == Run(retainsStages, history)
    }

    /** This much of the protocol is behind the owner, and nothing else. */
    ghost predicate HasDone(milestones: nat)
      reads this
    {
      |log| == milestones && InOrder(binding, log)
    }

    /** The attempt was cancelled or has failed, and will never lead to evidence. */
    ghost predicate HasFailed()
      reads this
    {
      && outcome == (if aborted then CancelledOutcome else FailedOutcome)
      && waiting.ForFailureRetained? && NoEvidenceEver(retainsStages, history)
    }

    /** What is asked of the output of a stage. */
    ghost predicate Accepts(output: StageOutput)
      reads this
    {
      !aborted && output.code == 0 && output.cleanupConfirmed && output.admissible
    }

    constructor (retainsStages: bool)
      ensures this.retainsStages == retainsStages && Valid() && history == []
      ensures !attempted && !disposed && !aborted && !record && meshes == solves == 0
      ensures outcome.NotStarted? && cleanupConfirmed && waiting.Idle? && HasDone(0)
    {
      this.retainsStages := retainsStages;
      attempted, disposed, aborted, outcome := false, false, false, NotStarted;
      meshes, solves, cleanupConfirmed, record := 0, 0, true, false;
      waiting, binding, log, history := Idle, "", [], [];
    }

    /** Every event goes on record before it is handled. */
    ghost method Record(e: Event)
      requires Valid()
      modifies this`history
      ensures history == old(history) + [e] && Run(retainsStages, history) == Step(retainsStages, Now(), e)
      ensures Quarantined(Run(retainsStages, history)) || Run(retainsStages, history).aborted ==>
        NoEvidenceEver(retainsStages, history)
    {
      RunOne(retainsStages, history, e);
      history := history + [e];
      Hopeless(retainsStages, history);
    }

    method Fail()
      modifies this
      ensures Now() == Failed(old(Now())) && history == old(history)
    {
      outcome, waiting := if aborted then CancelledOutcome else FailedOutcome, ForFailureRetained;
    }

    method BeginVerification(round: nat)
      modifies this
      ensures Now() == Verify(old(Now()), round) && history == old(history)
    {
      if disposed || aborted {
        Fail();
      } else {
        waiting := ForVerification(round, FirstRead);
      }
    }

    /** The start of `run`: one attempt per owner, and none after a disposal; a
        refused call changes nothing. */
    method Begin(signalAborted: bool, mayStart: bool) returns (begun: bool)
      requires Valid()
      modifies this
      ensures Valid() && history == old(history) + [RunCalled(signalAborted, mayStart)]
      ensures begun == (!old(attempted) && !old(disposed)) && (attempted || disposed)
      ensures !begun ==> Now() == old(Now())
      ensures begun ==> (aborted <==> old(aborted) || signalAborted)
      ensures begun && mayStart && !signalAborted && !old(aborted) ==> waiting.ForModel?
      ensures begun && !(mayStart && !signalAborted && !old(aborted)) ==> HasFailed()
    {
      Record(RunCalled(signalAborted, mayStart));
      if attempted || disposed {
        return false;
      }
      attempted := true;
      if signalAborted {
        aborted := true;
      }
      if !mayStart || aborted {
        Fail();
      } else {
        waiting := ForModel;
      }
      return true;
    }

    /** The approved model is frozen and bound, or the attempt fails. */
    method AfterModel(bound: Option<string>)
      requires Valid() && waiting.ForModel?
      modifies this
      ensures Valid() && history == old(history) + [ModelRead(bound)] && HasDone(0)
      ensures if bound.Some? then waiting.ForTransfer? && binding == bound.value && outcome.InProgress?
        else HasFailed()
    {
      Always(retainsStages, history);
      Record(ModelRead(bound));
      if bound.None? {
        Fail();
        return;
      }
      binding, outcome, waiting := bound.value, InProgress, ForTransfer;
    }

    method AfterTransfer(receipt: bool)
      requires Valid() && waiting.ForTransfer?
      modifies this
      ensures Valid() && history == old(history) + [Consumed(receipt)]
      ensures if receipt then waiting.ForExecution? && HasDone(1) else HasFailed() && HasDone(0)
    {
      Always(retainsStages, history);
      Record(Consumed(receipt));
      if !receipt {
        Fail();
        return;
      }
      log, waiting := log + [TransferConsumed(binding)], ForExecution;
    }

    method AfterExecution(receipt: bool)
      requires Valid() && waiting.ForExecution?
      modifies this
      ensures Valid() && history == old(history) + [Consumed(receipt)]
      ensures receipt ==> HasDone(2)
      ensures if receipt && !disposed && !aborted then waiting == ForVerification(0, FirstRead) else HasFailed()
    {
      Always(retainsStages, history);
      Record(Consumed(receipt));
      if !receipt {
        Fail();
        return;
      }
      log := log + [ExecutionConsumed(binding)];
      BeginVerification(0);
    }

    /** One await of a verification has been answered: the solve starts exactly
        after the second read of the verification between mesh and solve. */
    method AfterCheckOf(round: nat, step: VerifyStep, passed: bool)
      requires Valid() && waiting == ForVerification(round, step)
      modifies this
      ensures Valid() && history == old(history) + [Checked(passed)]
      ensures !passed ==> HasFailed()
      ensures solves == old(solves) + (if SolveUnderWay(old(waiting)) && passed then 1 else 0)
      ensures waiting.ForSolve? ==> solves == meshes == 1 && HasDone(7)
      ensures meshes == old(meshes)
      ensures passed ==> GoesOn(old(Now()), Now()) && InOrder(binding, log)
    {
      Always(retainsStages, history);
      CheckOutcome(retainsStages, Now(), passed);
      CheckGoesOn(retainsStages, Now());
      Record(Checked(passed));
      if !passed {
        Fail();
        return;
      }
      GoOnFrom(round, step);
    }

    /** The next of the four awaits of a verification. */
    method GoOnFrom(round: nat, step: VerifyStep)
      modifies this
      ensures Now() == AfterCheck(old(Now()), round, step) && history == old(history)
    {
      match step {
        case FirstRead => waiting := ForVerification(round, TransferCheck);
        case TransferCheck => waiting := ForVerification(round, ExecutionCheck);
        case ExecutionCheck =>
          if disposed || aborted {
            Fail();
          } else {
            waiting := ForVerification(round, SecondRead);
          }
        case SecondRead => GoOn(round);
      }
    }

    /** Both reads of a verification have passed. */
    method GoOn(round: nat)
      modifies this
      ensures Now() == AfterVerification(old(Now()), round) && history == old(history)
    {
      log := log + [Verified(binding)];
      match round {
        case 0 => waiting := ForStartRetained;
        case 1 => solves, log, waiting := solves + 1, log + [SolveStarted], ForSolve;
        case _ => waiting := ForEvidenceRetained;
      }
    }

    /** The start is on record: the one mesh begins. */
    method AfterStartRetained(kept: bool)
      requires Valid() && waiting.ForStartRetained?
      modifies this
      ensures Valid() && history == old(history) + [Retained(kept)]
      ensures if kept then waiting.ForMesh? && meshes == 1 && HasDone(4) else HasFailed() && meshes == 0
    {
      Always(retainsStages, history);
      Record(Retained(kept));
      if !kept {
        Fail();
        return;
      }
      meshes, log, waiting := meshes + 1, log + [MeshStarted], ForMesh;
    }

    method JudgeMeshOutput(output: StageOutput)
      modifies this
      ensures Now() == JudgeMesh(old(Now()), output) && history == old(history)
    {
      cleanupConfirmed := output.cleanupConfirmed;
      if aborted || output.code != 0 || !output.cleanupConfirmed || !output.admissible {
        Fail();
        return;
      }
      log := log + [MeshAccepted];
      BeginVerification(1);
    }

    method JudgeSolveOutput(output: StageOutput)
      modifies this
      ensures Now() == JudgeSolve(old(Now()), output) && history == old(history)
    {
      cleanupConfirmed := output.cleanupConfirmed;
      if aborted || output.code != 0 || !output.cleanupConfirmed || !output.admissible {
        Fail();
        return;
      }
      log := log + [SolveAccepted];
      BeginVerification(2);
    }

    /** The mesh stage has returned: a controlled one is put on record first. The
        mesh is accepted exactly if unaborted, successful, cleaned up and admissible. */
    method AfterMeshStage(output: StageOutput)
      requires Valid() && waiting.ForMesh?
      modifies this
      ensures Valid() && history == old(history) + [StageDone(Some(output), None)]
      ensures if retainsStages then waiting == ForMeshRetained(output) && HasDone(4)
        else if old(Accepts(output)) then HasDone(5) && waiting == ForVerification(1, FirstRead)
        else HasFailed() && HasDone(4)
      ensures !retainsStages ==> cleanupConfirmed == output.cleanupConfirmed
    {
      Always(retainsStages, history);
      Record(StageDone(Some(output), None));
      if retainsStages {
        waiting := ForMeshRetained(output);
        return;
      }
      JudgeMeshOutput(output);
    }

    method AfterMeshRetained(output: StageOutput, kept: bool)
      requires Valid() && waiting == ForMeshRetained(output)
      modifies this
      ensures Valid() && history == old(history) + [Retained(kept)]
      ensures if kept && old(Accepts(output)) then HasDone(5) && waiting == ForVerification(1, FirstRead)
        else HasFailed() && HasDone(4)
      ensures cleanupConfirmed == if kept then output.cleanupConfirmed else old(cleanupConfirmed)
    {
      Always(retainsStages, history);
      Record(Retained(kept));
      if !kept {
        Fail();
        return;
      }
      JudgeMeshOutput(output);
    }

    /** The solve stage has returned, and is judged in the same way. */
    method AfterSolveStage(output: StageOutput)
      requires Valid() && waiting.ForSolve?
      modifies this
      ensures Valid() && history == old(history) + [StageDone(Some(output), None)]
      ensures if retainsStages then waiting == ForSolveRetained(output) && HasDone(7)
        else if old(Accepts(output)) then HasDone(8) && waiting == ForVerification(2, FirstRead)
        else HasFailed() && HasDone(7)
      ensures !retainsStages ==> cleanupConfirmed == output.cleanupConfirmed
    {
      Always(retainsStages, history);
      Record(StageDone(Some(output), None));
      if retainsStages {
        waiting := ForSolveRetained(output);
        return;
      }
      JudgeSolveOutput(output);
    }

    method AfterSolveRetained(output: StageOutput, kept: bool)
      requires Valid() && waiting == ForSolveRetained(output)
      modifies this
      ensures Valid() && history == old(history) + [Retained(kept)]
      ensures if kept && old(Accepts(output)) then HasDone(8) && waiting == ForVerification(2, FirstRead)
        else HasFailed() && HasDone(7)
      ensures cleanupConfirmed == if kept then output.cleanupConfirmed else old(cleanupConfirmed)
    {
      Always(retainsStages, history);
      Record(Retained(kept));
      if !kept {
        Fail();
        return;
      }
      JudgeSolveOutput(output);
    }

    /** A stage that throws fails the attempt, and may say whether it was cleaned up. */
    method AfterStageError(errorCleanup: Option<bool>)
      requires Valid() && (waiting.ForMesh? || waiting.ForSolve?)
      modifies this
      ensures Valid() && history == old(history) + [StageDone(None, errorCleanup)] && HasFailed()
      ensures cleanupConfirmed == if errorCleanup.Some? then errorCleanup.value else old(cleanupConfirmed)
    {
      Record(StageDone(None, errorCleanup));
      if errorCleanup.Some? {
        cleanupConfirmed := errorCleanup.value;
      }
      Fail();
    }

    /** The evidence is on record: the attempt is complete with all ten milestones,
        and its handle is good exactly if nobody has cancelled. */
    method AfterEvidenceRetained(kept: bool)
      requires Valid() && waiting.ForEvidenceRetained?
      modifies this
      ensures Valid() && history == old(history) + [Retained(kept)]
      ensures if kept then outcome.Complete? && HasDone(10) && meshes == solves == 1 && cleanupConfirmed
        else HasFailed()
      ensures EvidenceBegins(Now(), false) <==> kept && !aborted
    {
      Always(retainsStages, history);
      Record(Retained(kept));
      StoredOutcome(Now());
      if !kept {
        Fail();
        return;
      }
      record, outcome, log, waiting := true, Complete, log + [Stored(binding)], Ended;
    }

    /** The failure is on record, or could not be: the attempt is over either way. */
    method AfterFailureRetained(kept: bool)
      requires Valid() && waiting.ForFailureRetained?
      modifies this
      ensures Valid() && history == old(history) + [Retained(kept)]
      ensures waiting.Ended? && Quarantined(Now()) && outcome == old(outcome) && NoEvidenceEver(retainsStages, history)
    {
      Always(retainsStages, history);
      Record(Retained(kept));
      waiting := Ended;
    }

    /** The caller's signal, heard until the attempt is over. */
    method Signal()
      requires Valid() && attempted && !waiting.Ended?
      modifies this
      ensures Valid() && history == old(history) + [SignalAborted] && aborted
      ensures NoEvidenceEver(retainsStages, history)
    {
      Record(SignalAborted);
      aborted := true;
    }

    /** From now on no evidence call succeeds, whatever is still under way. */
    method Cancel()
      requires Valid()
      modifies this
      ensures Valid() && history == old(history) + [CancelCalled] && aborted && !record
      ensures NoEvidenceEver(retainsStages, history)
    {
      Record(CancelCalled);
      aborted, record := true, false;
    }

    method Dispose()
      requires Valid()
      modifies this
      ensures Valid() && history == old(history) + [DisposeCalled] && disposed && aborted && !record
      ensures NoEvidenceEver(retainsStages, history)
    {
      Record(DisposeCalled);
      disposed, aborted, record := true, true, false;
    }
  }
}
