/** One run of the single-domain pipeline: a mesh job, then a solver job, each
    submitted, polled and collected, while callers may cancel at any point
    between. A cancel does not ask whether the run has already ended. */
module PipelineV1 {
  import opened Wrappers

  datatype Status = Queued | Running | Succeeded | Failed | Cancelled

  datatype Stage = Mesh | Solver

  /** What the execution waits for; `WaitOver` is the turn between the end of a
      polling loop and the code after it. */
  datatype Waiting =
    | ForSubmission(stage: Stage)
    | ForAbandonment(stage: Stage)
    | ForStatus(stage: Stage)
    | ForPause(stage: Stage)
    | ForTimeout(stage: Stage)
    | WaitOver(stage: Stage, threw: bool)
    | ForOutput(stage: Stage)
    | ForNothing

  datatype Child = Child(stage: Stage, runId: string)

  /** `asked` holds the child jobs that were asked to stop; `settled` says that a
      cancel call has run to its end. */
  datatype State = State(
    status: Status, cancelled: bool, meshRunId: Option<string>, solverRunId: Option<string>, result: Option<string>,
    waiting: Waiting, cancelPending: bool, asked: set<Child>, settled: bool)

  datatype ChildStatus = ChildQueued | ChildRunning | ChildSucceeded | ChildFailed | ChildCancelled

  /** An answer to what is waited for (a missing one is a rejection), or a cancel call. */
  datatype Event =
    | Submitted(runId: Option<string>, deadlinePassed: bool)
    | Abandoned
    | Answered(reply: Option<ChildStatus>)
    | Paused(deadlinePassed: bool)
    | TimeoutHandled
    | Resumed
    | Delivered(output: Option<Option<string>>, valid: bool)
    | CancelCalled
    | CancelAnswered(accepted: bool)

  function Initial(requestValid: bool): State {
    State(if requestValid then Running else Failed, false, None, None, None,
          if requestValid then ForSubmission(Mesh) else ForNothing, false, {}, false)
  }

  function RunIdOf(s: State, stage: Stage): Option<string> {
    if stage.Mesh? then s.meshRunId else s.solverRunId
  }

  function WithRunId(s: State, stage: Stage, runId: string): State {
    if stage.Mesh? then s.(meshRunId := Some(runId)) else s.(solverRunId := Some(runId))
  }

  function Ask(s: State, stage: Stage): State {
    if RunIdOf(s, stage).None? then s else s.(asked := s.asked + {Child(stage, RunIdOf(s, stage).value)})
  }

  function Caught(s: State): State {
    if s.cancelled then s.(waiting := ForNothing) else s.(result := None, status := Failed, waiting := ForNothing)
  }

  function LoopHead(s: State, stage: Stage, deadlinePassed: bool): State {
    if s.cancelled then s.(waiting := WaitOver(stage, false))
    else if deadlinePassed then Ask(s, stage).(waiting := ForTimeout(stage))
    else s.(waiting := ForStatus(stage))
  }

  function AfterStatus(s: State, stage: Stage, reply: ChildStatus): State {
    s.(status := if reply.ChildQueued? then Queued else Running,
       waiting := if reply.ChildSucceeded? then WaitOver(stage, false)
                  else if reply.ChildFailed? || reply.ChildCancelled? then WaitOver(stage, true)
                  else ForPause(stage))
  }

  function AfterOutput(s: State, stage: Stage, output: Option<string>, valid: bool): State {
    if output.None? then Caught(s)
    else if stage.Mesh? then
      if !valid then Caught(s) else s.(status := Running, waiting := ForSubmission(Solver))
    else s.(result := output, status := Succeeded, waiting := ForNothing)
  }

  /** The child that a cancel call addresses: the solver job if there is one. */
  function Target(s: State): Option<Child> {
    if s.solverRunId.Some? then Some(Child(Solver, s.solverRunId.value))
    else if s.meshRunId.Some? then Some(Child(Mesh, s.meshRunId.value))
    else None
  }

  function Settle(s: State): State {
    s.(result := None, status := Cancelled, cancelPending := false, settled := true)
  }

  function CancelCall(s: State): State {
    if s.cancelled then s
    else if Target(s).Some? then s.(cancelled := true, asked := s.asked + {Target(s).value}, cancelPending := true)
    else Settle(s.(cancelled := true))
  }

  function Step(s: State, e: Event): State {
    match e
    case Submitted(runId, deadlinePassed) =>
      if !s.waiting.ForSubmission? then s
      else if runId.None? then Caught(s)
      else
        var known := WithRunId(s, s.waiting.stage, runId.value);
        if s.cancelled then Ask(known, s.waiting.stage).(waiting := ForAbandonment(s.waiting.stage))
        else LoopHead(known, s.waiting.stage, deadlinePassed)
    case Abandoned =>
      if !s.waiting.ForAbandonment? then s else s.(waiting := ForNothing)
    case Answered(reply) =>
      if !s.waiting.ForStatus? then s
      else if reply.None? then s.(waiting := WaitOver(s.waiting.stage, true))
      else if s.cancelled then s.(waiting := WaitOver(s.waiting.stage, false))
      else AfterStatus(s, s.waiting.stage, reply.value)
    case Paused(deadlinePassed) =>
      if !s.waiting.ForPause? then s else LoopHead(s, s.waiting.stage, deadlinePassed)
    case TimeoutHandled =>
      if !s.waiting.ForTimeout? then s else s.(waiting := WaitOver(s.waiting.stage, true))
    case Resumed =>
      if !s.waiting.WaitOver? then s
      else if s.waiting.threw then Caught(s)
      else if s.cancelled then s.(waiting := ForNothing)
      else s.(waiting := ForOutput(s.waiting.stage))
    case Delivered(output, valid) =>
      if !s.waiting.ForOutput? then s
      else if output.None? then Caught(s)
      else if s.cancelled then s.(waiting := ForNothing)
      else AfterOutput(s, s.waiting.stage, output.value, valid)
    case CancelCalled => CancelCall(s)
    case CancelAnswered(accepted) =>
      if !s.cancelPending then s
      else if accepted then Settle(s)
      else s.(cancelPending := false)
  }

  function Run(requestValid: bool, events: seq<Event>): State {
    if events == [] then Initial(requestValid)
    else Step(Run(requestValid, events[..|events| - 1]), events[|events| - 1])
  }

  lemma RunOne(requestValid: bool, history: seq<Event>, e: Event)
    ensures Run(requestValid, history + [e]) == Step(Run(requestValid, history), e)
  {
    assert (history + [e])[..|history|] == history;
  }

  /** A longer history, one event at a time. */
  lemma RunOnward(requestValid: bool, before: seq<Event>, after: seq<Event>)
    ensures after == [] ==> before + after == before
    ensures after != [] ==>
      Run(requestValid, before + after) == Step(Run(requestValid, before + after[..|after| - 1]), after[|after| - 1])
  {
    if after != [] {
      var init, last := after[..|after| - 1], after[|after| - 1];
      LastApart(before, after);
      RunOne(requestValid, before + init, last);
    }
  }

  // ---------------------------------------------------------------- what every interleaving keeps

  /** The child submitted last. */
  function LastChild(s: State): Option<Child> {
    Target(s)
  }

  /** Where a stage still waits for its job, nothing is known of it or of a later one. */
  ghost predicate StagesInOrder(s: State) {
    match s.waiting
    case ForSubmission(stage) =>
      RunIdOf(s, stage).None? && if stage.Mesh? then s.solverRunId.None? else s.meshRunId.Some?
    case ForNothing => true
    case ForAbandonment(stage) => RunIdOf(s, stage).Some? && (stage.Mesh? ==> s.solverRunId.None?) && s.cancelled
    case _ => RunIdOf(s, s.waiting.stage).Some? && (s.waiting.stage.Mesh? ==> s.solverRunId.None?)
  }

  ghost predicate Invariant(s: State) {
    && StagesInOrder(s)
    && (s.result.Some? <==> s.status.Succeeded?)
    && (s.status.Succeeded? || s.status.Failed? ==> s.waiting.ForNothing?)
    && (s.waiting.ForNothing? ==> s.cancelled || s.status.Succeeded? || s.status.Failed?)
    && (s.settled <==> s.status.Cancelled?)
    && (s.settled || s.cancelPending ==> s.cancelled)
    && !(s.settled && s.cancelPending)
    && (s.cancelled && LastChild(s).Some? ==> LastChild(s).value in s.asked)
  }

  lemma LoopHeadKeeps(s: State, stage: Stage, deadlinePassed: bool)
    requires Invariant(s) && (s.waiting.ForPause? && s.waiting.stage == stage)
    ensures Invariant(LoopHead(s, stage, deadlinePassed))
  {
  }

  lemma SubmittedKeeps(s: State, runId: Option<string>, deadlinePassed: bool)
    requires Invariant(s)
    ensures Invariant(Step(s, Submitted(runId, deadlinePassed)))
  {
  }

  lemma StepKeepsInvariant(s: State, e: Event)
    requires Invariant(s)
    ensures Invariant(Step(s, e))
  {
    match e
    case Submitted(runId, deadlinePassed) => SubmittedKeeps(s, runId, deadlinePassed);
    case Paused(deadlinePassed) =>
      if s.waiting.ForPause? {
        LoopHeadKeeps(s, s.waiting.stage, deadlinePassed);
      }
    case _ =>
  }

  lemma {:induction false} Always(requestValid: bool, events: seq<Event>)
    ensures Invariant(Run(requestValid, events))
  {
    if events != [] {
      Always(requestValid, events[..|events| - 1]);
      StepKeepsInvariant(Run(requestValid, events[..|events| - 1]), events[|events| - 1]);
    }
  }

  predicate IsCancelEvent(e: Event) {
    e.CancelCalled? || e.CancelAnswered?
  }

  ghost predicate NoCancelIn(events: seq<Event>) {
    forall k :: 0 <= k < |events| ==> !IsCancelEvent(events[k])
  }

  ghost predicate SameOutcome(s: State, t: State) {
    t.status == s.status && t.result == s.result
  }

  lemma MuteStep(s: State, e: Event)
    requires Invariant(s) && s.cancelled
    ensures Step(s, e).cancelled && (s.settled ==> Step(s, e).settled)
    ensures SameOutcome(s, Step(s, e)) || (IsCancelEvent(e) && Step(s, e).settled)
  {
  }

  /** Once a cancel was called, the execution writes neither status nor result: only
      a cancel that runs to its end does. */
  lemma {:induction false} CancelledExecutionIsMute(requestValid: bool, before: seq<Event>, after: seq<Event>)
    requires Run(requestValid, before).cancelled
    ensures var s, t := Run(requestValid, before), Run(requestValid, before + after);
      t.cancelled && (SameOutcome(s, t) || t.settled) && (NoCancelIn(after) ==> SameOutcome(s, t))
  {
    RunOnward(requestValid, before, after);
    if after != [] {
      var init := after[..|after| - 1];
      CancelledExecutionIsMute(requestValid, before, init);
      Always(requestValid, before + init);
      MuteStep(Run(requestValid, before + init), after[|after| - 1]);
    }
  }

  lemma SettledStays(s: State, e: Event)
    requires Invariant(s) && s.settled
    ensures Step(s, e).settled
  {
  }

  /** After a cancel that ran to its end the run is cancelled and empty for good. */
  lemma {:induction false} SettledIsFinal(requestValid: bool, before: seq<Event>, after: seq<Event>)
    requires Run(requestValid, before).settled
    ensures Run(requestValid, before + after).settled
    ensures Run(requestValid, before + after).status.Cancelled? && Run(requestValid, before + after).result.None?
  {
    Always(requestValid, before + after);
    RunOnward(requestValid, before, after);
    if after != [] {
      var init := after[..|after| - 1];
      SettledIsFinal(requestValid, before, init);
      Always(requestValid, before + init);
      SettledStays(Run(requestValid, before + init), after[|after| - 1]);
    }
  }

  /** Execution over and a cancel called: the child submitted last was asked to
      stop, even one whose submission was still under way at the call. */
  lemma LastChildIsAsked(requestValid: bool, events: seq<Event>)
    requires Run(requestValid, events).cancelled && Run(requestValid, events).waiting.ForNothing?
    ensures LastChild(Run(requestValid, events)).Some? ==>
      LastChild(Run(requestValid, events)).value in Run(requestValid, events).asked
  {
    Always(requestValid, events);
  }

  /** A run that succeeded or failed stays so until a cancel has run to its end. */
  lemma EndIsLeftOnlyByCancel(requestValid: bool, events: seq<Event>, e: Event)
    requires Run(requestValid, events).status.Succeeded? || Run(requestValid, events).status.Failed?
    ensures var s, t := Run(requestValid, events), Step(Run(requestValid, events), e);
      (t.status == s.status && t.result == s.result) || t.settled
  {
    Always(requestValid, events);
  }

  // ---------------------------------------------------------------- what a cancel call returns

  /** The status a cancel call returns at once, if it does not wait for a child. */
  function ReturnedAtOnce(s: State): Option<Status> {
    if s.cancelled then Some(s.status)
    else if Target(s).Some? then None
    else Some(Cancelled)
  }

  /** A call that comes back at once reports the run as cancelled exactly when it
      is the first one or an earlier one has run to its end. */
  lemma ReturnsCancelledExactly(requestValid: bool, events: seq<Event>)
    requires ReturnedAtOnce(Run(requestValid, events)).Some?
    ensures ReturnedAtOnce(Run(requestValid, events)) == Some(Cancelled) <==>
      !Run(requestValid, events).cancelled || Run(requestValid, events).settled
  {
    Always(requestValid, events);
  }

  /** So a second call can return normally from a run that is not cancelled. */
  lemma SecondCancelMayReportRunning(runId: string)
    ensures var s := Run(true, [Submitted(Some(runId), false), CancelCalled]);
      s.cancelled && ReturnedAtOnce(s) == Some(Running)
  {
    var events := [Submitted(Some(runId), false), CancelCalled];
    assert events[..1] == [events[0]] && events[..1][..0] == [];
    assert Run(true, []) == Initial(true);
    assert Run(true, events[..1]) == Step(Initial(true), events[0]);
  }

  /** A cancel was called, is no longer under way, and did not run to its end. */
  predicate Refused(s: State) {
    s.cancelled && !s.cancelPending && !s.settled
  }

  lemma RefusedStays(s: State, e: Event)
    requires Refused(s)
    ensures Refused(Step(s, e))
  {
  }

  /** If the child refuses to stop, the run is never cancelled, whatever follows. */
  lemma {:induction false} RefusedCancelNeverSettles(requestValid: bool, before: seq<Event>, after: seq<Event>)
    requires Refused(Run(requestValid, before))
    ensures Refused(Run(requestValid, before + after)) && !Run(requestValid, before + after).status.Cancelled?
  {
    Always(requestValid, before + after);
    RunOnward(requestValid, before, after);
    if after != [] {
      var init := after[..|after| - 1];
      RefusedCancelNeverSettles(requestValid, before, init);
      RefusedStays(Run(requestValid, before + init), after[|after| - 1]);
    }
  }

  /** That does happen: a mesh job that cannot be cancelled leaves the run as it
      is, for good. */
  lemma RefusedCancelHappens(runId: string, after: seq<Event>)
    ensures var events := [Submitted(Some(runId), false), CancelCalled, CancelAnswered(false)];
      Refused(Run(true, events)) && !Run(true, events + after).status.Cancelled?
  {
    var events := [Submitted(Some(runId), false), CancelCalled, CancelAnswered(false)];
    RunOne(true, [], events[0]);
    RunOne(true, [events[0]], CancelCalled);
    RunOne(true, [events[0], CancelCalled], CancelAnswered(false));
    assert [] + [events[0]] == [events[0]] && [events[0]] + [CancelCalled] == [events[0], CancelCalled];
    assert [events[0], CancelCalled] + [CancelAnswered(false)] == events;
    RefusedCancelNeverSettles(true, events, after);
  }

  /** A run that has succeeded can still be cancelled: exactly if it was not
      before and its last child then accepts the call. */
  lemma SucceededIsCancelledExactly(requestValid: bool, events: seq<Event>, accepted: bool)
    requires Run(requestValid, events).status.Succeeded?
    ensures Run(requestValid, events + [CancelCalled] + [CancelAnswered(accepted)]).status.Cancelled? <==>
      (!Run(requestValid, events).cancelled || Run(requestValid, events).cancelPending) && accepted
  {
    Always(requestValid, events);
    RunOne(requestValid, events, CancelCalled);
    RunOne(requestValid, events + [CancelCalled], CancelAnswered(accepted));
    SucceededHasChild(requestValid, events);
  }

  lemma SuccessNeedsSolver(s: State, e: Event)
    requires Invariant(s) && (s.status.Succeeded? ==> s.solverRunId.Some?) && Step(s, e).status.Succeeded?
    ensures Step(s, e).solverRunId.Some?
  {
  }

  /** A run succeeds only with the output of a solver job. */
  lemma {:induction false} SucceededHasChild(requestValid: bool, events: seq<Event>)
    ensures Run(requestValid, events).status.Succeeded? ==> Run(requestValid, events).solverRunId.Some?
  {
    if events != [] {
      var init := events[..|events| - 1];
      Always(requestValid, init);
      SucceededHasChild(requestValid, init);
      if Run(requestValid, events).status.Succeeded? {
        SuccessNeedsSolver(Run(requestValid, init), events[|events| - 1]);
      }
    }
  }

  /** Such a run: meshed, solved, and cancelled only after that. */
  function Successful(mesh: string, solver: string, output: string): seq<Event> {
    Reaching(mesh, Mesh, Some(output)) + Reaching(solver, Solver, Some(output))
  }

  /** One stage from its submission to the delivery of its output. */
  function Reaching(runId: string, stage: Stage, output: Option<string>): seq<Event> {
    [Submitted(Some(runId), false), Answered(Some(ChildSucceeded)), Resumed, Delivered(Some(output), true)]
  }

  lemma StageRuns(before: seq<Event>, runId: string, stage: Stage, output: string)
    requires Run(true, before).waiting == ForSubmission(stage) && !Run(true, before).cancelled
    ensures var s, t := Run(true, before), Run(true, before + Reaching(runId, stage, Some(output)));
      t == AfterOutput(WithRunId(s, stage, runId).(status := Running), stage, Some(output), true)
  {
    var all := Reaching(runId, stage, Some(output));
    RunOne(true, before, all[0]);
    RunOne(true, before + [all[0]], all[1]);
    RunOne(true, before + [all[0]] + [all[1]], all[2]);
    RunOne(true, before + [all[0]] + [all[1]] + [all[2]], all[3]);
    assert before + [all[0]] + [all[1]] + [all[2]] + [all[3]] == before + all;
  }

  lemma SucceededIsStillCancelled(mesh: string, solver: string, output: string)
    ensures var events := Successful(mesh, solver, output);
      && Run(true, events).status.Succeeded? && Run(true, events).result == Some(output)
      && Run(true, events + [CancelCalled] + [CancelAnswered(true)]).status.Cancelled?
  {
    var first := Reaching(mesh, Mesh, Some(output));
    assert Run(true, []) == Initial(true);
    StageRuns([], mesh, Mesh, output);
    assert [] + first == first;
    StageRuns(first, solver, Solver, output);
    SucceededIsCancelledExactly(true, Successful(mesh, solver, output), true);
  }

  // ---------------------------------------------------------------- what the calls come to

  /** What the part of a cancel that runs at once comes to. */
  lemma CancelOutcome(s: State)
    requires Invariant(s)
    ensures var t, returned := Step(s, CancelCalled), ReturnedAtOnce(s);
      && t.cancelled
      && (returned.Some? ==> returned.value == t.status)
      && (returned.None? ==>
            !s.cancelled && LastChild(t).Some? && LastChild(t).value in t.asked && t.cancelPending
            && t.status == s.status && t.result == s.result)
      && (returned == Some(Cancelled) <==> t.settled)
      && (returned.Some? && returned != Some(Cancelled) ==> s.cancelled && t == s)
  {
  }

  /** Whatever follows, the run is cancelled and empty. */
  ghost predicate CancelledForGood(requestValid: bool, history: seq<Event>) {
    forall after :: Run(requestValid, history + after).status.Cancelled? &&
      Run(requestValid, history + after).result.None?
  }

  lemma SettledForGood(requestValid: bool, history: seq<Event>)
    requires Run(requestValid, history).settled
    ensures CancelledForGood(requestValid, history)
  {
    forall after
      ensures Run(requestValid, history + after).status.Cancelled? && Run(requestValid, history + after).result.None?
    {
      SettledIsFinal(requestValid, history, after);
    }
  }

  /** Whatever follows, the run never becomes cancelled. */
  ghost predicate NeverCancelled(requestValid: bool, history: seq<Event>) {
    forall after :: !Run(requestValid, history + after).status.Cancelled?
  }

  lemma RefusedForGood(requestValid: bool, history: seq<Event>)
    requires Refused(Run(requestValid, history))
    ensures NeverCancelled(requestValid, history)
  {
    forall after ensures !Run(requestValid, history + after).status.Cancelled? {
      RefusedCancelNeverSettles(requestValid, history, after);
    }
  }

  // ---------------------------------------------------------------- the run as it is kept

  /** `history` is what has happened to the run so far. */
  class Pipeline {
    ghost const requestValid: bool
    var status: Status
    var cancelled: bool
    var meshRunId: Option<string>
    var solverRunId: Option<string>
    var result: Option<string>
    ghost var waiting: Waiting
    ghost var cancelPending: bool
    ghost var asked: set<Child>
    ghost var settled: bool
    ghost var history: seq<Event>

    ghost function Now(): State
      reads this
    {
      State(status, cancelled, meshRunId, solverRunId, result, waiting, cancelPending, asked, settled)
    }

    ghost predicate Valid()
      reads this
    {
      Now() == Run(requestValid, history)
    }

    constructor (requestValid: bool)
      ensures this.requestValid == requestValid && Valid() && history == []
      ensures !cancelled && meshRunId.None? && solverRunId.None? && result.None? && !cancelPending && asked == {}
      ensures if requestValid then status.Running? && waiting == ForSubmission(Mesh)
        else status.Failed? && waiting.ForNothing?
    {
      this.requestValid := requestValid;
      status, cancelled := if requestValid then Running else Failed, false;
      meshRunId, solverRunId, result := None, None, None;
      waiting := if requestValid then ForSubmission(Mesh) else ForNothing;
      cancelPending, asked, settled, history := false, {}, false, [];
    }

    /** Every event goes on record before it is handled. */
    ghost method Record(e: Event)
      requires Valid()
      modifies this`history
      ensures history == old(history) + [e] && Run(requestValid, history) == Step(Now(), e)
    {
      RunOne(requestValid, history, e);
      history := history + [e];
    }

    method Catch()
      modifies this
      ensures Now() == Caught(old(Now())) && history == old(history)
    {
      waiting := ForNothing;
      if !cancelled {
        result, status := None, Failed;
      }
    }

    method AtLoopHead(stage: Stage, deadlinePassed: bool)
      requires RunIdOf(Now(), stage).Some?
      modifies this
      ensures Now() == LoopHead(old(Now()), stage, deadlinePassed) && history == old(history)
    {
      if !cancelled && !deadlinePassed {
        waiting := ForStatus(stage);
        return;
      }
      if !cancelled {
        asked := asked + {Child(stage, RunIdOf(Now(), stage).value)};
        waiting := ForTimeout(stage);
        return;
      }
      waiting := WaitOver(stage, false);
    }

    /** The job is known from now on. If the run was cancelled meanwhile the job is
        asked to stop and the status left alone. */
    method AfterSubmission(stage: Stage, runId: Option<string>, deadlinePassed: bool)
      requires Valid() && waiting == ForSubmission(stage)
      modifies this
      ensures Valid() && history == old(history) + [Submitted(runId, deadlinePassed)]
      ensures meshRunId == (if stage.Mesh? then runId else old(meshRunId))
      ensures solverRunId == (if stage.Solver? then runId else old(solverRunId)) && cancelled == old(cancelled)
      ensures cancelled ==> status == old(status) && result == old(result)
      ensures asked == old(asked) +
        if runId.Some? && (cancelled || deadlinePassed) then {Child(stage, runId.value)} else {}
      ensures !cancelled ==> status == if runId.None? then Failed else old(status)
      ensures waiting == if runId.None? then ForNothing else if cancelled then ForAbandonment(stage)
                         else if deadlinePassed then ForTimeout(stage) else ForStatus(stage)
    {
      Always(requestValid, history);
      Record(Submitted(runId, deadlinePassed));
      if runId.None? {
        Catch();
        return;
      }
      if stage.Mesh? {
        meshRunId := runId;
      } else {
        solverRunId := runId;
      }
      if cancelled {
        asked, waiting := asked + {Child(stage, runId.value)}, ForAbandonment(stage);
        return;
      }
      AtLoopHead(stage, deadlinePassed);
    }

    /** The request to stop a job submitted too late has been answered. */
    method AfterAbandonment()
      requires Valid() && waiting.ForAbandonment?
      modifies this
      ensures Valid() && history == old(history) + [Abandoned] && waiting.ForNothing?
      ensures cancelled && status == old(status) && result == old(result) && asked == old(asked)
      ensures LastChild(Now()).Some? && LastChild(Now()).value in asked
    {
      Always(requestValid, history);
      Record(Abandoned);
      waiting := ForNothing;
    }

    /** A status of the child is passed on; its end or the run's cancel ends the
        wait, and a cancelled run takes no notice of what was answered. */
    method AfterAnswer(reply: Option<ChildStatus>)
      requires Valid() && waiting.ForStatus?
      modifies this
      ensures Valid() && history == old(history) + [Answered(reply)] && cancelled == old(cancelled)
      ensures result.None? && (status.Cancelled? <==> settled)
      ensures cancelled ==> status == old(status) && waiting.WaitOver?
      ensures !cancelled && reply.Some? ==> status == if reply.value.ChildQueued? then Queued else Running
      ensures (reply.None? ==> status == old(status)) && asked == old(asked)
      ensures waiting.ForPause? <==> !cancelled && reply in {Some(ChildQueued), Some(ChildRunning)}
      ensures waiting.WaitOver? && !waiting.threw <==>
        reply.Some? && (cancelled || reply == Some(ChildSucceeded))
    {
      Always(requestValid, history);
      Record(Answered(reply));
      ghost var stage := waiting.stage;
      if reply.None? {
        waiting := WaitOver(stage, true);
        return;
      }
      if cancelled {
        waiting := WaitOver(stage, false);
        return;
      }
      status := if reply.value.ChildQueued? then Queued else Running;
      match reply.value {
        case ChildSucceeded => waiting := WaitOver(stage, false);
        case ChildFailed => waiting := WaitOver(stage, true);
        case ChildCancelled => waiting := WaitOver(stage, true);
        case _ => waiting := ForPause(stage);
      }
    }

    /** After a pause the loop goes on; out of time, the child is asked to stop. */
    method AfterPause(stage: Stage, deadlinePassed: bool)
      requires Valid() && waiting == ForPause(stage)
      modifies this
      ensures Valid() && history == old(history) + [Paused(deadlinePassed)] && status == old(status)
      ensures waiting.ForStatus? <==> !cancelled && !deadlinePassed
      ensures waiting.ForTimeout? <==> !cancelled && deadlinePassed
      ensures waiting.ForTimeout? ==>
        && (stage.Mesh? ==> meshRunId.Some? && asked == old(asked) + {Child(Mesh, meshRunId.value)})
        && (stage.Solver? ==> solverRunId.Some? && asked == old(asked) + {Child(Solver, solverRunId.value)})
      ensures !waiting.ForTimeout? ==> asked == old(asked)
    {
      Always(requestValid, history);
      Record(Paused(deadlinePassed));
      AtLoopHead(stage, deadlinePassed);
    }

    method AfterTimeout()
      requires Valid() && waiting.ForTimeout?
      modifies this
      ensures Valid() && history == old(history) + [TimeoutHandled]
      ensures waiting.WaitOver? && waiting.threw && status == old(status) && asked == old(asked)
    {
      Always(requestValid, history);
      Record(TimeoutHandled);
      waiting := WaitOver(waiting.stage, true);
    }

    /** The code after a polling loop: failed if the wait threw, silent if the run
        was cancelled, and otherwise asking for the output. */
    method AfterWait(threw: bool)
      requires Valid() && waiting.WaitOver? && waiting.threw == threw
      modifies this
      ensures Valid() && history == old(history) + [Resumed] && result == old(result)
      ensures status == (if threw && !cancelled then Failed else old(status)) && asked == old(asked)
      ensures waiting.ForOutput? <==> !threw && !cancelled
      ensures waiting.ForNothing? <==> threw || cancelled
    {
      Always(requestValid, history);
      Record(Resumed);
      if threw {
        Catch();
        return;
      }
      waiting := if cancelled then ForNothing else ForOutput(waiting.stage);
    }

    /** An output is used exactly if it is there, valid and wanted: the mesh leads
        on to the solver, the solver's output becomes the result. */
    method AfterDelivery(stage: Stage, output: Option<Option<string>>, valid: bool)
      requires Valid() && waiting == ForOutput(stage)
      modifies this
      ensures Valid() && history == old(history) + [Delivered(output, valid)]
      ensures cancelled ==> status == old(status) && result == old(result) && waiting.ForNothing?
      ensures status.Succeeded? <==> result.Some?
      ensures result.Some? <==> stage.Solver? && !cancelled && output.Some? && output.value.Some?
      ensures result.Some? ==> output == Some(result)
      ensures waiting == ForSubmission(Solver) <==>
        stage.Mesh? && !cancelled && output.Some? && output.value.Some? && valid
      ensures !cancelled && result.None? && waiting.ForNothing? ==> status.Failed?
      ensures (waiting == ForSubmission(Solver) ==> status.Running?) && asked == old(asked)
    {
      Always(requestValid, history);
      Record(Delivered(output, valid));
      if output.None? {
        Catch();
        return;
      }
      if cancelled {
        waiting := ForNothing;
        return;
      }
      if output.value.None? || (stage.Mesh? && !valid) {
        Catch();
        return;
      }
      if stage.Mesh? {
        status, waiting := Running, ForSubmission(Solver);
      } else {
        result, status, waiting := output.value, Succeeded, ForNothing;
      }
    }

    /** The part of `cancel` that runs at once: what it returns, if it returns. The
        first call asks the last child to stop, or else cancels the run for good; a
        later one reports the run cancelled exactly if an earlier one settled. */
    method Cancel() returns (returned: Option<Status>)
      requires Valid()
      modifies this
      ensures Valid() && history == old(history) + [CancelCalled] && cancelled
      ensures returned.Some? ==> returned.value == status
      ensures returned.None? <==> !old(cancelled) && (meshRunId.Some? || solverRunId.Some?)
      ensures asked == old(asked) +
        if returned.Some? then {}
        else if solverRunId.Some? then {Child(Solver, solverRunId.value)} else {Child(Mesh, meshRunId.value)}
      ensures returned.None? ==> status == old(status) && result == old(result) && cancelPending
      ensures returned == Some(Cancelled) <==> settled
      ensures returned == Some(Cancelled) ==> CancelledForGood(requestValid, history)
      ensures returned.Some? && returned != Some(Cancelled) ==> old(cancelled) && Now() == old(Now())
    {
      Always(requestValid, history);
      Record(CancelCalled);
      CancelOutcome(Now());
      if Run(requestValid, history).settled {
        SettledForGood(requestValid, history);
      }
      if cancelled {
        return Some(status);
      }
      cancelled := true;
      if solverRunId.Some? {
        asked, cancelPending := asked + {Child(Solver, solverRunId.value)}, true;
        return None;
      }
      if meshRunId.Some? {
        asked, cancelPending := asked + {Child(Mesh, meshRunId.value)}, true;
        return None;
      }
      result, status, cancelPending, settled := None, Cancelled, false, true;
      return Some(status);
    }

    /** The rest of a cancel: cancelled and empty for good if the child accepted,
        and otherwise never. */
    method AfterCancel(accepted: bool)
      requires Valid() && cancelPending
      modifies this
      ensures Valid() && history == old(history) + [CancelAnswered(accepted)]
      ensures accepted ==> status.Cancelled? && result.None? && CancelledForGood(requestValid, history)
      ensures !accepted ==> status == old(status) && result == old(result) && NeverCancelled(requestValid, history)
      ensures !cancelPending && asked == old(asked)
    {
      Always(requestValid, history);
      Record(CancelAnswered(accepted));
      cancelPending := false;
      if accepted {
        result, status, settled := None, Cancelled, true;
        SettledForGood(requestValid, history);
      } else {
        RefusedForGood(requestValid, history);
      }
    }
  }
}
