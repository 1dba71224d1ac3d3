/** The electrostatic runs a provider holds: admission with eviction, execution,
    quarantine, revocation, release and acknowledgement, in any interleaving. */
module ElectrostaticRuns {
  import opened Wrappers
  import opened RunTable

  const MAXIMUM_RUNS := 4

  datatype Status = Queued | Running | Succeeded | Failed | Cancelled

  /** How far the execution of a run has come: not begun, between its awaits,
      cleaning up after an error, in its final clean-up check, over. */
  datatype Execution = NotStarted | Active | Failing | Finishing | Over

  /** The one cancellation a run can have; it may end without confirmed clean-up. */
  datatype Cancellation = NoCancellation | Cancelling | CancellationOver(confirmed: bool)

  /** `pinned` is the result digest fixed at completion. `gentle` and
      `acknowledging` count the cancel and acknowledge calls that first look
      whether a succeeded run is clean. */
  datatype Run = Run(
    status: Status, revoked: bool, archived: bool, cleanupFailure: bool, pinned: Option<string>,
    execution: Execution, cancellation: Cancellation, gentle: nat, acknowledging: nat)

  const NEW_RUN := Run(Queued, false, false, false, None, NotStarted, NoCancellation, 0, 0)

  predicate Busy(r: Run) {
    r.status.Queued? || r.status.Running?
  }

  // ---------------------------------------------------------------- one run

  /** What can happen to one run. `Answered` is a `getResult` whose lifecycle
      read came back, with the digest it reports and whether everything else
      about it still matches. */
  datatype RunEvent =
    | Start
    | Throw
    | Complete(resultDigest: string)
    | CaughtUp(cleanupRejected: bool)
    | Finish(cleaned: bool)
    | Answered(reply: Option<string>, matches: bool)
    | CancelCalled
    | AcknowledgeCalled
    | GentleAnswered(clean: bool, acknowledge: bool)
    | CancellationFinished(clean: bool)

  function Fail(r: Run): Run {
    r.(status := Failed)
  }

  function Thrown(r: Run): Run {
    Fail(r).(execution := Failing)
  }

  /** Revocation starts at most one cancellation. */
  function Revoke(r: Run): Run {
    if r.cancellation.NoCancellation? then r.(revoked := true, cancellation := Cancelling) else r
  }

  /** The final check: an unclean run cannot stay succeeded, a revoked one ends cancelled. */
  function Finished(r: Run, cleaned: bool): Run {
    var checked := if !cleaned || r.cleanupFailure then Fail(r) else r;
    (if r.revoked then checked.(status := Cancelled) else checked).(execution := Over)
  }

  /** What `getResult` makes of a finished lifecycle read. */
  function ResultReturned(r: Run, reply: Option<string>, matches: bool): Option<string> {
    if r.revoked || !r.status.Succeeded? then None
    else if reply.None? || reply != r.pinned || !matches then None
    else reply
  }

  function AfterRead(r: Run, reply: Option<string>, matches: bool): Run {
    if r.revoked || !r.status.Succeeded? then r
    else if reply.None? || reply != r.pinned || !matches then Fail(r)
    else r
  }

  function AfterGentle(r: Run, clean: bool, acknowledge: bool): Run {
    if r.status.Succeeded? && clean && !r.cleanupFailure then
      if acknowledge then r.(archived := true) else r
    else Revoke(r)
  }

  function RunStep(r: Run, e: RunEvent): Run {
    match e
    case Start =>
      if !r.execution.NotStarted? then r
      else if r.revoked then Thrown(r)
      else r.(status := Running, execution := Active)
    case Throw =>
      if r.execution.Active? then Thrown(r) else r
    case Complete(resultDigest) =>
      if !r.execution.Active? then r
      else if r.revoked then Thrown(r.(pinned := Some(resultDigest)))
      else r.(pinned := Some(resultDigest), status := Succeeded, execution := Finishing)
    case CaughtUp(cleanupRejected) =>
      if !r.execution.Failing? then r
      else r.(cleanupFailure := r.cleanupFailure || cleanupRejected, execution := Finishing)
    case Finish(cleaned) =>
      if r.execution.Finishing? then Finished(r, cleaned) else r
    case Answered(reply, matches) => AfterRead(r, reply, matches)
    case CancelCalled =>
      if r.status.Succeeded? && !r.revoked then r.(gentle := r.gentle + 1) else Revoke(r)
    case AcknowledgeCalled =>
      if !r.status.Succeeded? || r.cleanupFailure then r
      else if !r.revoked then r.(acknowledging := r.acknowledging + 1)
      else r
    case GentleAnswered(clean, acknowledge) =>
      if !r.execution.Over? then r
      else if acknowledge then
        if r.acknowledging == 0 then r else AfterGentle(r.(acknowledging := r.acknowledging - 1), clean, true)
      else
        if r.gentle == 0 then r else AfterGentle(r.(gentle := r.gentle - 1), clean, false)
    case CancellationFinished(clean) =>
      if !r.cancellation.Cancelling? || !r.execution.Over? then r
      else r.(status := Cancelled, cancellation := CancellationOver(clean && !r.cleanupFailure))
  }

  ghost predicate RunInvariant(r: Run) {
    && (Busy(r) <==> r.execution.NotStarted? || r.execution.Active?)
    && (r.status.Queued? <==> r.execution.NotStarted?)
    && (r.revoked <==> !r.cancellation.NoCancellation?)
    && (r.cancellation.CancellationOver? ==> r.execution.Over? && r.status.Cancelled?)
    && (r.status.Succeeded? ==> r.pinned.Some?)
    && (r.execution.NotStarted? || r.execution.Active? ==> r.pinned.None?)
  }

  lemma RunStepKeeps(r: Run, e: RunEvent)
    requires RunInvariant(r)
    ensures RunInvariant(RunStep(r, e))
    ensures Busy(RunStep(r, e)) ==> Busy(r)
    ensures r.pinned.Some? ==> RunStep(r, e).pinned == r.pinned
    ensures r.revoked ==> RunStep(r, e).revoked
  {
  }

  /** The run has ended and does not count as succeeded, or never will again. */
  predicate Withdrawn(r: Run) {
    r.revoked || (!Busy(r) && !r.status.Succeeded?)
  }

  /** A withdrawn run yields no result, whatever the lifecycle says. */
  lemma WithdrawnYieldsNothing(r: Run, reply: Option<string>, matches: bool)
    requires Withdrawn(r)
    ensures RunInvariant(r) ==> ResultReturned(r, reply, matches) == None
  {
  }

  // ---------------------------------------------------------------- all runs

  type Runs = Table<Run>

  datatype Event =
    | Submit(newId: string, approvalValid: bool)
    | On(id: string, event: RunEvent)
    | Release(id: string)

  predicate Evictable(r: Run) {
    r.archived && r.status.Succeeded? && !r.cleanupFailure
  }

  /** One saved run makes room, whether or not the submission is then accepted. */
  function Evict(runs: Runs): Runs {
    if |runs| < MAXIMUM_RUNS || FirstWhere(runs, Evictable, 0).None? then runs
    else Without(runs, FirstWhere(runs, Evictable, 0).value)
  }

  predicate Admitted(runs: Runs, approvalValid: bool) {
    |runs| < MAXIMUM_RUNS && !AnyWhere(runs, Busy) && approvalValid
  }

  function AfterSubmit(runs: Runs, newId: string, approvalValid: bool): Runs {
    var room := Evict(runs);
    if Admitted(room, approvalValid) then room + [Entry(newId, NEW_RUN)] else room
  }

  /** Only a run whose cancellation ended with confirmed clean-up is released. */
  function Step(runs: Runs, e: Event): Runs {
    match e
    case Submit(newId, approvalValid) =>
      if Find(runs, newId, 0).Some? then runs else AfterSubmit(runs, newId, approvalValid)
    case On(id, event) =>
      (match Find(runs, id, 0)
       case None => runs
       case Some(i) => With(runs, i, RunStep(runs[i].run, event)))
    case Release(id) =>
      match Find(runs, id, 0)
      case None => runs
      case Some(i) => if runs[i].run.cancellation == CancellationOver(true) then Without(runs, i) else runs
  }

  function After(events: seq<Event>): Runs {
    if events == [] then [] else Step(After(events[..|events| - 1]), events[|events| - 1])
  }

  ghost predicate Invariant(runs: Runs) {
    && |runs| <= MAXIMUM_RUNS
    && UniqueIds(runs)
    && (forall i :: 0 <= i < |runs| ==> RunInvariant(runs[i].run))
    && (forall i, j :: 0 <= i < j < |runs| ==> !(Busy(runs[i].run) && Busy(runs[j].run)))
  }

  lemma WithoutKeeps(runs: Runs, i: nat)
    requires Invariant(runs) && i < |runs|
    ensures Invariant(Without(runs, i))
  {
  }

  lemma EvictKeeps(runs: Runs, id: string)
    requires Invariant(runs)
    ensures Invariant(Evict(runs))
    ensures Held(Evict(runs), id) == Held(runs, id) ||
      (Held(Evict(runs), id) == None && |runs| == MAXIMUM_RUNS && Held(runs, id).Some? &&
        Evictable(Held(runs, id).value))
  {
    var first := FirstWhere(runs, Evictable, 0);
    if |runs| >= MAXIMUM_RUNS && first.Some? {
      WithoutKeeps(runs, first.value);
      HeldAfterWithout(runs, first.value, id);
      HeldAt(runs, first.value);
    }
  }

  lemma SubmitKeeps(runs: Runs, newId: string, approvalValid: bool)
    requires Invariant(runs) && Find(runs, newId, 0).None?
    ensures Invariant(AfterSubmit(runs, newId, approvalValid))
  {
    EvictKeeps(runs, newId);
    HeldAfterAppend(Evict(runs), Entry(newId, NEW_RUN), newId);
  }

  lemma OnKeeps(runs: Runs, i: nat, event: RunEvent)
    requires Invariant(runs) && i < |runs|
    ensures Invariant(With(runs, i, RunStep(runs[i].run, event)))
  {
    RunStepKeeps(runs[i].run, event);
    HeldAfterWith(runs, i, RunStep(runs[i].run, event), runs[i].id);
  }

  lemma StepKeepsInvariant(runs: Runs, e: Event)
    requires Invariant(runs)
    ensures Invariant(Step(runs, e))
  {
    match e
    case Submit(newId, approvalValid) =>
      if Find(runs, newId, 0).None? {
        SubmitKeeps(runs, newId, approvalValid);
      }
    case On(id, event) =>
      var i := Find(runs, id, 0);
      if i.Some? {
        OnKeeps(runs, i.value, event);
      }
    case Release(id) =>
      var i := Find(runs, id, 0);
      if i.Some? {
        WithoutKeeps(runs, i.value);
      }
  }

  /** In every reachable state at most four runs are held, at most one of them is
      queued or running, and each is in order. */
  lemma {:induction false} Always(events: seq<Event>)
    ensures Invariant(After(events))
  {
    if events != [] {
      Always(events[..|events| - 1]);
      StepKeepsInvariant(After(events[..|events| - 1]), events[|events| - 1]);
    }
  }

  // ---------------------------------------------------------------- following one run

  function SubmittedIds(events: seq<Event>): set<string> {
    if events == [] then {}
    else
      var last := events[|events| - 1];
      SubmittedIds(events[..|events| - 1]) + if last.Submit? then {last.newId} else {}
  }

  /** Run ids are drawn at random and never repeat. */
  ghost predicate FreshIds(events: seq<Event>) {
    events != [] ==>
      FreshIds(events[..|events| - 1]) &&
      (events[|events| - 1].Submit? ==> events[|events| - 1].newId !in SubmittedIds(events[..|events| - 1]))
  }

  lemma HeldIsInOrder(runs: Runs, id: string)
    requires Invariant(runs) && Held(runs, id).Some?
    ensures RunInvariant(Held(runs, id).value)
  {
  }

  /** The ways in which a run can be removed. */
  ghost predicate Removed(runs: Runs, e: Event, id: string, r: Run) {
    match e
    case Submit(_, _) => |runs| == MAXIMUM_RUNS && Evictable(r)
    case Release(other) => other == id && r.cancellation == CancellationOver(true)
    case On(_, _) => false
  }

  /** What one event can do to the run with a given id: nothing, a step of its
      own, removal, or, if there is none, its submission. */
  lemma HeldAfter(runs: Runs, e: Event, id: string)
    requires Invariant(runs)
    ensures var before, after := Held(runs, id), Held(Step(runs, e), id);
      match before
      case None => after == None || (e.Submit? && e.newId == id)
      case Some(r) =>
        if e.On? && e.id == id then after == Some(RunStep(r, e.event))
        else after == Some(r) || (after == None && Removed(runs, e, id, r))
  {
    match e
    case Submit(newId, approvalValid) =>
      if Find(runs, newId, 0).None? {
        EvictKeeps(runs, id);
        EvictKeeps(runs, newId);
        HeldAfterAppend(Evict(runs), Entry(newId, NEW_RUN), id);
      }
    case On(other, event) =>
      var i := Find(runs, other, 0);
      if i.Some? {
        HeldAfterWith(runs, i.value, RunStep(runs[i.value].run, event), id);
        HeldAt(runs, i.value);
      }
    case Release(other) =>
      var i := Find(runs, other, 0);
      if i.Some? {
        HeldAfterWithout(runs, i.value, id);
        HeldAt(runs, i.value);
      }
  }

  // ---------------------------------------------------------------- over whole histories

  lemma {:induction false} HeldWasSubmitted(events: seq<Event>, id: string)
    requires Held(After(events), id).Some?
    ensures id in SubmittedIds(events)
  {
    if events != [] {
      var init := events[..|events| - 1];
      Always(init);
      HeldAfter(After(init), events[|events| - 1], id);
      if Held(After(init), id).Some? {
        HeldWasSubmitted(init, id);
      }
    }
  }

  lemma SubmittedOne(history: seq<Event>, e: Event)
    ensures SubmittedIds(history + [e]) == SubmittedIds(history) + if e.Submit? then {e.newId} else {}
    ensures FreshIds(history + [e]) <==> FreshIds(history) && (e.Submit? ==> e.newId !in SubmittedIds(history))
  {
    assert (history + [e])[..|history|] == history;
  }

  lemma FreshOnward(before: seq<Event>, after: seq<Event>)
    requires after != [] && FreshIds(before + after)
    ensures FreshIds(before + after[..|after| - 1])
    ensures after[|after| - 1].Submit? ==> after[|after| - 1].newId !in SubmittedIds(before + after[..|after| - 1])
  {
    var init, last := after[..|after| - 1], after[|after| - 1];
    LastApart(before, after);
    SubmittedOne(before + init, last);
  }

  lemma {:induction false} SubmittedGrow(before: seq<Event>, after: seq<Event>)
    ensures SubmittedIds(before) <= SubmittedIds(before + after)
  {
    if after == [] {
      assert before + after == before;
    } else {
      var init, last := after[..|after| - 1], after[|after| - 1];
      SubmittedGrow(before, init);
      LastApart(before, after);
      SubmittedOne(before + init, last);
    }
  }

  /** What stays with a run: being withdrawn, and its pinned digest. */
  ghost predicate Persists(was: Run, now: Run) {
    (Withdrawn(was) ==> Withdrawn(now)) && (was.pinned.Some? ==> now.pinned == was.pinned)
  }

  lemma PersistsThroughStep(was: Run, now: Run, e: RunEvent)
    requires RunInvariant(now) && Persists(was, now)
    ensures Persists(was, RunStep(now, e))
  {
  }

  // ---------------------------------------------------------------- runs that calls still hold

  /** A call under way keeps hold of its run; a new call has to look it up. */
  predicate LooksUp(e: RunEvent) {
    e.CancelCalled? || e.AcknowledgeCalled?
  }

  /** The run as the calls that hold it see it, whether or not the table has let go
      of it in the meantime. */
  function Seen(events: seq<Event>, id: string): Option<Run> {
    if events == [] then None
    else if Held(After(events), id).Some? then Held(After(events), id)
    else
      var before, last := Seen(events[..|events| - 1], id), events[|events| - 1];
      if before.Some? && last.On? && last.id == id && !LooksUp(last.event) then
        Some(RunStep(before.value, last.event))
      else before
  }

  lemma HeldIsSeen(events: seq<Event>, id: string)
    requires Held(After(events), id).Some?
    ensures Seen(events, id) == Held(After(events), id)
  {
  }

  lemma {:induction false} SeenWasSubmitted(events: seq<Event>, id: string)
    requires Seen(events, id).Some?
    ensures id in SubmittedIds(events)
  {
    if Held(After(events), id).Some? {
      HeldWasSubmitted(events, id);
    } else {
      SeenWasSubmitted(events[..|events| - 1], id);
    }
  }

  /** What one event can do to a run that is seen: nothing, or a step of its own. */
  lemma SeenAfter(history: seq<Event>, e: Event, id: string)
    requires FreshIds(history + [e]) && Seen(history, id).Some?
    ensures var r := Seen(history, id).value;
      || Seen(history + [e], id) == Some(r)
      || (e.On? && Seen(history + [e], id) == Some(RunStep(r, e.event)))
  {
    var longer := history + [e];
    assert longer[..|longer| - 1] == history;
    Always(history);
    AfterOne(history, e);
    SubmittedOne(history, e);
    SeenWasSubmitted(history, id);
    HeldAfter(After(history), e, id);
    if Held(After(history), id).Some? {
      HeldIsSeen(history, id);
    }
  }

  lemma {:induction false} SeenInOrder(events: seq<Event>, id: string)
    requires FreshIds(events) && Seen(events, id).Some?
    ensures RunInvariant(Seen(events, id).value)
  {
    if Held(After(events), id).Some? {
      Always(events);
      HeldIsInOrder(After(events), id);
    } else {
      var init, last := events[..|events| - 1], events[|events| - 1];
      assert events == init + [last];
      SeenInOrder(init, id);
      SeenAfter(init, last, id);
      if last.On? {
        RunStepKeeps(Seen(init, id).value, last.event);
      }
    }
  }

  lemma PersistsOne(history: seq<Event>, e: Event, id: string, was: Run)
    requires FreshIds(history + [e]) && Seen(history, id).Some? && Persists(was, Seen(history, id).value)
    ensures Seen(history + [e], id).Some? && Persists(was, Seen(history + [e], id).value)
  {
    SubmittedOne(history, e);
    SeenAfter(history, e, id);
    SeenInOrder(history, id);
    if e.On? {
      PersistsThroughStep(was, Seen(history, id).value, e.event);
    }
  }

  lemma {:induction false} PersistsOnward(before: seq<Event>, after: seq<Event>, id: string)
    requires FreshIds(before + after) && Seen(before, id).Some?
    ensures Seen(before + after, id).Some? && Persists(Seen(before, id).value, Seen(before + after, id).value)
  {
    if after == [] {
      assert before + after == before;
    } else {
      var init := after[..|after| - 1];
      FreshOnward(before, after);
      LastApart(before, after);
      PersistsOnward(before, init, id);
      PersistsOne(before + init, after[|after| - 1], id, Seen(before, id).value);
    }
  }

  /** Once a run was revoked, or ended without counting as succeeded, no later
      `getResult` returns anything for it, not even one that was under way when the
      run was removed. */
  lemma NoResultOnceWithdrawn(before: seq<Event>, after: seq<Event>, id: string, reply: Option<string>, matches: bool)
    requires FreshIds(before + after) && Seen(before, id).Some? && Withdrawn(Seen(before, id).value)
    ensures Seen(before + after, id).Some? && ResultReturned(Seen(before + after, id).value, reply, matches) == None
  {
    PersistsOnward(before, after, id);
    SeenInOrder(before + after, id);
    WithdrawnYieldsNothing(Seen(before + after, id).value, reply, matches);
  }

  /** All results ever returned for a run carry one digest, also those that come
      after its removal. */
  lemma OneDigestPerRun(before: seq<Event>, after: seq<Event>, id: string, first: Option<string>,
      second: Option<string>)
    requires FreshIds(before + after) && Seen(before, id).Some?
    requires ResultReturned(Seen(before, id).value, first, true).Some?
    ensures Seen(before + after, id).Some?
    ensures ResultReturned(Seen(before + after, id).value, second, true).Some? ==> first == second
  {
    PersistsOnward(before, after, id);
  }

  /** If the run is held, it counts as succeeded and was not saved. */
  ghost predicate UnsavedIfHeld(events: seq<Event>, id: string) {
    var r := Held(After(events), id);
    r.Some? ==> r.value.status.Succeeded? && !r.value.archived
  }

  lemma UnsavedNotRemoved(runs: Runs, e: Event, id: string)
    requires Invariant(runs) && Held(runs, id).Some?
    requires Held(runs, id).value.status.Succeeded? && !Held(runs, id).value.archived
    ensures Held(Step(runs, e), id).Some?
  {
    HeldIsInOrder(runs, id);
    HeldAfter(runs, e, id);
  }

  lemma AfterOne(history: seq<Event>, e: Event)
    ensures After(history + [e]) == Step(After(history), e)
  {
    assert (history + [e])[..|history|] == history;
  }

  /** A longer history, one event at a time. */
  lemma AfterOnward(before: seq<Event>, after: seq<Event>)
    ensures after == [] ==> before + after == before
    ensures after != [] ==> After(before + after) == Step(After(before + after[..|after| - 1]), after[|after| - 1])
  {
    if after != [] {
      var init, last := after[..|after| - 1], after[|after| - 1];
      LastApart(before, after);
      AfterOne(before + init, last);
    }
  }

  /** All along, from `before` through what follows it. */
  ghost predicate UnsavedAlong(before: seq<Event>, after: seq<Event>, id: string) {
    UnsavedIfHeld(before + after, id) && (after != [] ==> UnsavedAlong(before, after[..|after| - 1], id))
  }

  /** As long as a run counts as succeeded and was not saved, it is never removed. */
  lemma {:induction false} UnsavedIsKept(before: seq<Event>, after: seq<Event>, id: string)
    requires Held(After(before), id).Some? && UnsavedAlong(before, after, id)
    ensures Held(After(before + after), id).Some?
  {
    if after == [] {
      assert before + after == before;
    } else {
      UnsavedIsKept(before, after[..|after| - 1], id);
      Always(before + after[..|after| - 1]);
      UnsavedNotRemoved(After(before + after[..|after| - 1]), after[|after| - 1], id);
      AfterOnward(before, after);
    }
  }

  // ---------------------------------------------------------------- what the calls come to

  lemma OnHeld(history: seq<Event>, id: string, e: RunEvent)
    requires FreshIds(history) && Held(After(history), id).Some?
    ensures FreshIds(history + [On(id, e)])
    ensures UniqueIds(After(history)) && RunInvariant(Held(After(history), id).value)
    ensures var runs := After(history);
      var i := Find(runs, id, 0).value;
      After(history + [On(id, e)]) == With(runs, i, RunStep(runs[i].run, e))
    ensures Held(After(history + [On(id, e)]), id) == Some(RunStep(Held(After(history), id).value, e))
  {
    Always(history);
    HeldIsInOrder(After(history), id);
    AfterOne(history, On(id, e));
    SubmittedOne(history, On(id, e));
    var runs := After(history);
    var i := Find(runs, id, 0).value;
    HeldAfterWith(runs, i, RunStep(runs[i].run, e), id);
  }

  /** Whatever follows, no `getResult` returns anything for the run any more, be it
      called later or under way already. */
  ghost predicate NoMoreResults(history: seq<Event>, id: string) {
    forall after, reply, matches :: FreshIds(history + after) && Seen(history + after, id).Some? ==>
      ResultReturned(Seen(history + after, id).value, reply, matches) == None
  }

  lemma WithdrawnForGood(history: seq<Event>, id: string)
    requires FreshIds(history) && Held(After(history), id).Some? && Withdrawn(Held(After(history), id).value)
    ensures NoMoreResults(history, id)
  {
    HeldIsSeen(history, id);
    forall after, reply: Option<string>, matches: bool
      | FreshIds(history + after) && Seen(history + after, id).Some?
      ensures ResultReturned(Seen(history + after, id).value, reply, matches) == None
    {
      NoResultOnceWithdrawn(history, after, id, reply, matches);
    }
  }

  /** The run without the call that has looked at it. */
  function LookOver(r: Run, acknowledge: bool): Run
    requires if acknowledge then r.acknowledging > 0 else r.gentle > 0
  {
    if acknowledge then r.(acknowledging := r.acknowledging - 1) else r.(gentle := r.gentle - 1)
  }

  lemma LookStep(r: Run, clean: bool, acknowledge: bool)
    requires r.execution.Over? && (if acknowledge then r.acknowledging > 0 else r.gentle > 0)
    ensures RunStep(r, GentleAnswered(clean, acknowledge)) == AfterGentle(LookOver(r, acknowledge), clean, acknowledge)
  {
  }

  /** What a look at a run comes to. */
  lemma LookOutcome(r: Run, clean: bool, acknowledge: bool)
    requires RunInvariant(r) && r.execution.Over? && (if acknowledge then r.acknowledging > 0 else r.gentle > 0)
    ensures var t := RunStep(r, GentleAnswered(clean, acknowledge));
      if r.status.Succeeded? && clean && !r.cleanupFailure then t.status.Succeeded? && (acknowledge ==> t.archived)
      else Withdrawn(t)
  {
  }

  /** Every run that may not be dropped is held as before. */
  ghost predicate KeepsOthers(before: Runs, after: Runs) {
    forall id :: Held(before, id).Some? && !Evictable(Held(before, id).value) ==> Held(after, id) == Held(before, id)
  }

  lemma SubmitOutcome(history: seq<Event>, newId: string, approvalValid: bool)
    requires FreshIds(history) && newId !in SubmittedIds(history)
    ensures Find(After(history), newId, 0).None? && FreshIds(history + [Submit(newId, approvalValid)])
    ensures var runs, next := After(history), After(history + [Submit(newId, approvalValid)]);
      && next == AfterSubmit(runs, newId, approvalValid) && |next| <= MAXIMUM_RUNS && KeepsOthers(runs, next)
      && Held(next, newId) == if Admitted(Evict(runs), approvalValid) then Some(NEW_RUN) else None
  {
    var runs, e := After(history), Submit(newId, approvalValid);
    Always(history);
    if Held(runs, newId).Some? {
      HeldWasSubmitted(history, newId);
    }
    SubmittedOne(history, e);
    AfterOne(history, e);
    Always(history + [e]);
    EvictKeeps(runs, newId);
    HeldAfterAppend(Evict(runs), Entry(newId, NEW_RUN), newId);
    forall id | Held(runs, id).Some? && !Evictable(Held(runs, id).value)
      ensures Held(Step(runs, e), id) == Held(runs, id)
    {
      HeldAfter(runs, e, id);
    }
  }

  lemma ReleaseOutcome(history: seq<Event>, id: string)
    requires FreshIds(history) && Held(After(history), id).Some?
    requires Held(After(history), id).value.cancellation == CancellationOver(true)
    ensures FreshIds(history + [Release(id)])
    ensures var runs, next := After(history), After(history + [Release(id)]);
      && next == Without(runs, Find(runs, id, 0).value) && Held(next, id).None?
      && forall other :: other != id ==> Held(next, other) == Held(runs, other)
  {
    var runs := After(history);
    Always(history);
    SubmittedOne(history, Release(id));
    AfterOne(history, Release(id));
    var i := Find(runs, id, 0).value;
    HeldAfterWithout(runs, i, id);
    forall other | other != id ensures Held(Without(runs, i), other) == Held(runs, other) {
      HeldAfterWithout(runs, i, other);
    }
  }

  /** A run whose result was saved and that left nothing behind. */
  ghost predicate SavedAndClean(r: Run) {
    r.status.Succeeded? && r.archived && !r.cleanupFailure
  }

  ghost predicate NoneBusy(runs: Runs) {
    forall i :: 0 <= i < |runs| ==> !runs[i].run.status.Queued? && !runs[i].run.status.Running?
  }

  lemma IdleWithout(runs: Runs, i: nat)
    requires i < |runs| && SavedAndClean(runs[i].run)
    ensures NoneBusy(Without(runs, i)) <==> NoneBusy(runs)
  {
    var left := Without(runs, i);
    if NoneBusy(left) {
      forall k | 0 <= k < |runs| && k != i ensures !runs[k].run.status.Queued? && !runs[k].run.status.Running? {
        assert left[if k < i then k else k - 1] == runs[k];
      }
    }
  }

  /** A submission is accepted exactly if it is approved, no held run is queued or
      running, and fewer than four are held or one of the four was saved and is clean. */
  lemma AdmittedExactly(runs: Runs, approvalValid: bool)
    requires Invariant(runs)
    ensures Admitted(Evict(runs), approvalValid) <==>
      approvalValid && NoneBusy(runs) && (|runs| < 4 || exists i :: 0 <= i < |runs| && SavedAndClean(runs[i].run))
  {
    var first := FirstWhere(runs, Evictable, 0);
    assert !AnyWhere(Evict(runs), Busy) <==> NoneBusy(Evict(runs));
    if |runs| == 4 && first.Some? {
      assert SavedAndClean(runs[first.value].run);
      IdleWithout(runs, first.value);
    } else if |runs| == 4 {
      forall k | 0 <= k < 4 ensures !SavedAndClean(runs[k].run) {
        assert !Evictable(runs[k].run);
      }
    }
  }

  ghost predicate FirstSaved(runs: Runs, i: nat) {
    i < |runs| && SavedAndClean(runs[i].run) && forall k :: 0 <= k < i ==> !SavedAndClean(runs[k].run)
  }

  /** Room is made exactly if four runs are held and one of them was saved and is clean:
      the first of these goes, also when the submission is then refused. */
  lemma EvictedExactly(runs: Runs, i: nat)
    requires Invariant(runs)
    ensures |runs| < 4 || (forall k :: 0 <= k < |runs| ==> !SavedAndClean(runs[k].run)) ==> Evict(runs) == runs
    ensures |runs| == 4 && FirstSaved(runs, i) ==> Evict(runs) == runs[..i] + runs[i + 1..]
  {
    var first := FirstWhere(runs, Evictable, 0);
    assert first.Some? ==> SavedAndClean(runs[first.value].run);
    assert i < |runs| && SavedAndClean(runs[i].run) ==> Evictable(runs[i].run);
  }

  // ---------------------------------------------------------------- the provider as it is kept

  /** `history` is what has happened to the provider so far. */
  class Provider {
    var runs: Runs
    ghost var history: seq<Event>

    ghost predicate Valid()
      reads this
    {
      runs == After(history) && FreshIds(history)
    }

    constructor ()
      ensures Valid() && history == []
    {
      runs, history := [], [];
    }

    /** Make room if need be, then admit the run or refuse it; nothing but one
        saved run is ever dropped. */
    method SubmitRun(newId: string, approvalValid: bool) returns (accepted: bool)
      requires Valid() && newId !in SubmittedIds(history)
      modifies this
      ensures Valid() && history == old(history) + [Submit(newId, approvalValid)]
      ensures accepted == Admitted(Evict(old(runs)), approvalValid) && |runs| <= MAXIMUM_RUNS
      ensures !accepted ==> runs == Evict(old(runs))
      ensures Held(runs, newId) == if accepted
        then Some(Run(Queued, false, false, false, None, NotStarted, NoCancellation, 0, 0)) else None
      ensures KeepsOthers(old(runs), runs)
    {
      SubmitOutcome(history, newId, approvalValid);
      history := history + [Submit(newId, approvalValid)];
      if |runs| >= MAXIMUM_RUNS {
        EvictOne();
      }
      if |runs| >= MAXIMUM_RUNS {
        return false;
      }
      var busy := AnyBusy();
      if busy || !approvalValid {
        return false;
      }
      runs := runs + [Entry(newId, NEW_RUN)];
      return true;
    }

    method EvictOne()
      requires |runs| >= MAXIMUM_RUNS
      modifies this`runs
      ensures runs == Evict(old(runs))
    {
      for i := 0 to |runs|
        invariant runs == old(runs) && FirstWhere(runs, Evictable, 0) == FirstWhere(runs, Evictable, i)
      {
        if Evictable(runs[i].run) {
          runs := Without(runs, i);
          return;
        }
      }
    }

    method AnyBusy() returns (busy: bool)
      ensures busy == AnyWhere(runs, Busy)
    {
      for i := 0 to |runs|
        invariant forall k :: 0 <= k < i ==> !Busy(runs[k].run)
      {
        if Busy(runs[i].run) {
          return true;
        }
      }
      return false;
    }

    /** The start of the execution, a turn after the submission. */
    method Begin(id: string) returns (active: bool)
      requires Valid() && Held(runs, id).Some? && Held(runs, id).value.execution.NotStarted?
      modifies this
      ensures Valid() && history == old(history) + [On(id, Start)] && Held(runs, id).Some?
      ensures active == !Held(old(runs), id).value.revoked
      ensures var was := Held(old(runs), id).value;
        Held(runs, id).value == if active then was.(status := Running, execution := Active)
                                else was.(status := Failed, execution := Failing)
      ensures !active ==> NoMoreResults(history, id)
    {
      OnHeld(history, id, Start);
      history := history + [On(id, Start)];
      var i := Find(runs, id, 0).value;
      active := !runs[i].run.revoked;
      if active {
        runs := With(runs, i, runs[i].run.(status := Running, execution := Active));
      } else {
        runs := With(runs, i, runs[i].run.(status := Failed, execution := Failing));
        WithdrawnForGood(history, id);
      }
    }

    /** An await of the execution threw: the run can yield nothing any more. */
    method Throw(id: string)
      requires Valid() && Held(runs, id).Some? && Held(runs, id).value.execution.Active?
      modifies this
      ensures Valid() && history == old(history) + [On(id, RunEvent.Throw)]
      ensures Held(runs, id) == Some(Held(old(runs), id).value.(status := Failed, execution := Failing))
      ensures NoMoreResults(history, id)
    {
      OnHeld(history, id, RunEvent.Throw);
      history := history + [On(id, RunEvent.Throw)];
      var i := Find(runs, id, 0).value;
      runs := With(runs, i, runs[i].run.(status := Failed, execution := Failing));
      WithdrawnForGood(history, id);
    }

    /** The result is complete: it is pinned, and the run succeeds unless it was revoked. */
    method Complete(id: string, resultDigest: string)
      requires Valid() && Held(runs, id).Some? && Held(runs, id).value.execution.Active?
      modifies this
      ensures Valid() && history == old(history) + [On(id, RunEvent.Complete(resultDigest))] && Held(runs, id).Some?
      ensures var was := Held(old(runs), id).value.(pinned := Some(resultDigest));
        Held(runs, id).value == if was.revoked then was.(status := Failed, execution := Failing)
                                else was.(status := Succeeded, execution := Finishing)
      ensures Held(old(runs), id).value.revoked ==> NoMoreResults(history, id)
      ensures !Held(old(runs), id).value.revoked ==>
        ResultReturned(Held(runs, id).value, Some(resultDigest), true) == Some(resultDigest)
    {
      OnHeld(history, id, RunEvent.Complete(resultDigest));
      history := history + [On(id, RunEvent.Complete(resultDigest))];
      var i := Find(runs, id, 0).value;
      var pinned := runs[i].run.(pinned := Some(resultDigest));
      if pinned.revoked {
        runs := With(runs, i, pinned.(status := Failed, execution := Failing));
        WithdrawnForGood(history, id);
      } else {
        runs := With(runs, i, pinned.(status := Succeeded, execution := Finishing));
      }
    }

    /** After an error both native jobs were asked to stop; a refusal is remembered
        and keeps the run from ever being dropped as clean. */
    method CatchUp(id: string, cleanupRejected: bool)
      requires Valid() && Held(runs, id).Some? && Held(runs, id).value.execution.Failing?
      modifies this
      ensures Valid() && history == old(history) + [On(id, CaughtUp(cleanupRejected))] && Held(runs, id).Some?
      ensures cleanupRejected ==> !Evictable(Held(runs, id).value)
      ensures var was := Held(old(runs), id).value;
        Held(runs, id).value == was.(cleanupFailure := was.cleanupFailure || cleanupRejected, execution := Finishing)
    {
      OnHeld(history, id, CaughtUp(cleanupRejected));
      history := history + [On(id, CaughtUp(cleanupRejected))];
      var i := Find(runs, id, 0).value;
      var run := runs[i].run;
      runs := With(runs, i, run.(cleanupFailure := run.cleanupFailure || cleanupRejected, execution := Finishing));
    }

    /** The end of the execution, after its last clean-up check: what is left
        succeeded is clean and was not revoked, and what was revoked is cancelled. */
    method FinishExecution(id: string, cleaned: bool)
      requires Valid() && Held(runs, id).Some? && Held(runs, id).value.execution.Finishing?
      modifies this
      ensures Valid() && history == old(history) + [On(id, Finish(cleaned))] && Held(runs, id).Some?
      ensures var was, now := Held(old(runs), id).value, Held(runs, id).value;
        && now == was.(status := now.status, execution := Over)
        && (was.revoked ==> now.status.Cancelled?)
        && (!was.revoked && (!cleaned || was.cleanupFailure) ==> now.status.Failed?)
        && (!was.revoked && cleaned && !was.cleanupFailure ==> now.status == was.status)
      ensures !Held(runs, id).value.status.Succeeded? ==> NoMoreResults(history, id)
    {
      OnHeld(history, id, Finish(cleaned));
      history := history + [On(id, Finish(cleaned))];
      var i := Find(runs, id, 0).value;
      var run := runs[i].run.(execution := Over);
      if !cleaned || run.cleanupFailure {
        run := run.(status := Failed);
      }
      if run.revoked {
        run := run.(status := Cancelled);
      }
      runs := With(runs, i, run);
      if !run.status.Succeeded? {
        WithdrawnForGood(history, id);
      }
    }

    /** The part of `getResult` after the lifecycle was read: a result is returned
        of a succeeded run only, and only the one pinned; any other answer of the
        lifecycle withdraws the run for good. */
    method FinishGetResult(id: string, reply: Option<string>, matches: bool) returns (result: Option<string>)
      requires Valid() && Held(runs, id).Some?
      modifies this
      ensures Valid() && history == old(history) + [On(id, Answered(reply, matches))] && Held(runs, id).Some?
      ensures result == ResultReturned(Held(old(runs), id).value, reply, matches)
      ensures result.Some? ==> result == reply
      ensures var was := Held(old(runs), id).value;
        && (result.Some? <==> was.status.Succeeded? && !was.revoked && reply.Some? && reply == was.pinned && matches)
        && (Held(runs, id).value == if result.None? && was.status.Succeeded? && !was.revoked
                                    then was.(status := Failed) else was)
      ensures result.None? && !Busy(Held(runs, id).value) ==> NoMoreResults(history, id)
    {
      OnHeld(history, id, Answered(reply, matches));
      history := history + [On(id, Answered(reply, matches))];
      var i := Find(runs, id, 0).value;
      var run := runs[i].run;
      if run.revoked || run.status != Succeeded {
        WithSame(runs, i);
        if !Busy(run) {
          WithdrawnForGood(history, id);
        }
        return None;
      }
      if reply.None? || reply != run.pinned || !matches {
        runs := With(runs, i, run.(status := Failed));
        WithdrawnForGood(history, id);
        return None;
      }
      WithSame(runs, i);
      return reply;
    }

    /** The part of `cancel` that runs at once. A succeeded run is first looked at
        and stays as it is; any other is revoked, and its cancellation is begun
        unless it already was. */
    method Cancel(id: string) returns (looks: bool)
      requires Valid() && Held(runs, id).Some?
      modifies this
      ensures Valid() && history == old(history) + [On(id, CancelCalled)] && Held(runs, id).Some?
      ensures looks <==> Held(old(runs), id).value.status.Succeeded? && !Held(old(runs), id).value.revoked
      ensures var was := Held(old(runs), id).value;
        Held(runs, id).value == if looks then was.(gentle := was.gentle + 1)
                                else if was.cancellation.NoCancellation?
                                then was.(revoked := true, cancellation := Cancelling) else was
      ensures !looks ==> !Held(runs, id).value.cancellation.NoCancellation? && NoMoreResults(history, id)
    {
      OnHeld(history, id, CancelCalled);
      history := history + [On(id, CancelCalled)];
      var i := Find(runs, id, 0).value;
      var run := runs[i].run;
      ghost var next := RunStep(run, CancelCalled);
      looks := run.status == Succeeded && !run.revoked;
      if looks {
        run := run.(gentle := run.gentle + 1);
      } else if run.cancellation == NoCancellation {
        run := run.(revoked := true, cancellation := Cancelling);
      }
      assert run == next;
      runs := With(runs, i, run);
      if !looks {
        WithdrawnForGood(history, id);
      }
    }

    /** `acknowledgeSavedProject` up to its look at a run that has succeeded. */
    method BeginAcknowledge(id: string) returns (looks: bool)
      requires Valid() && Held(runs, id).Some?
      modifies this
      ensures Valid() && history == old(history) + [On(id, AcknowledgeCalled)] && Held(runs, id).Some?
      ensures var was := Held(old(runs), id).value;
        && (looks <==> was.status.Succeeded? && !was.cleanupFailure && !was.revoked)
        && (Held(runs, id).value == if looks then was.(acknowledging := was.acknowledging + 1) else was)
    {
      OnHeld(history, id, AcknowledgeCalled);
      history := history + [On(id, AcknowledgeCalled)];
      var i := Find(runs, id, 0).value;
      var run := runs[i].run;
      ghost var next := RunStep(run, AcknowledgeCalled);
      looks := run.status == Succeeded && !run.cleanupFailure && !run.revoked;
      if looks {
        run := run.(acknowledging := run.acknowledging + 1);
      }
      assert run == next;
      runs := With(runs, i, run);
    }

    /** The look a cancel or acknowledge call took at a succeeded run: still
        succeeded and clean, it stays, saved if it was acknowledged; otherwise it
        is revoked and withdrawn for good. */
    method AfterLook(id: string, clean: bool, acknowledge: bool) returns (stays: bool)
      requires Valid() && Held(runs, id).Some? && Held(runs, id).value.execution.Over?
      requires if acknowledge then Held(runs, id).value.acknowledging > 0 else Held(runs, id).value.gentle > 0
      modifies this
      ensures Valid() && history == old(history) + [On(id, GentleAnswered(clean, acknowledge))] && Held(runs, id).Some?
      ensures var was := LookOver(Held(old(runs), id).value, acknowledge);
        Held(runs, id).value == if stays then was.(archived := was.archived || acknowledge)
                                else if was.cancellation.NoCancellation?
                                then was.(revoked := true, cancellation := Cancelling) else was
      ensures !stays ==> NoMoreResults(history, id)
      ensures stays <==>
        Held(old(runs), id).value.status.Succeeded? && clean && !Held(old(runs), id).value.cleanupFailure
    {
      var e := GentleAnswered(clean, acknowledge);
      OnHeld(history, id, e);
      LookOutcome(Held(runs, id).value, clean, acknowledge);
      LookStep(Held(runs, id).value, clean, acknowledge);
      history := history + [On(id, e)];
      var i := Find(runs, id, 0).value;
      var run := runs[i].run;
      run := LookOver(run, acknowledge);
      ghost var next := AfterGentle(run, clean, acknowledge);
      stays := run.status == Succeeded && clean && !run.cleanupFailure;
      if stays {
        if acknowledge {
          run := run.(archived := true);
        }
      } else if run.cancellation == NoCancellation {
        run := run.(revoked := true, cancellation := Cancelling);
      }
      assert run == next;
      runs := With(runs, i, run);
      if !stays {
        WithdrawnForGood(history, id);
      }
    }

    /** The end of a cancellation: cancelled in any case, confirmed exactly when
        everything was cleaned up. */
    method FinishCancellation(id: string, clean: bool) returns (confirmed: bool)
      requires Valid() && Held(runs, id).Some?
      requires Held(runs, id).value.cancellation.Cancelling? && Held(runs, id).value.execution.Over?
      modifies this
      ensures Valid() && history == old(history) + [On(id, CancellationFinished(clean))] && Held(runs, id).Some?
      ensures NoMoreResults(history, id)
      ensures confirmed == (clean && !Held(old(runs), id).value.cleanupFailure)
      ensures Held(runs, id).value ==
        Held(old(runs), id).value.(status := Cancelled, cancellation := CancellationOver(confirmed))
    {
      OnHeld(history, id, CancellationFinished(clean));
      history := history + [On(id, CancellationFinished(clean))];
      var i := Find(runs, id, 0).value;
      var run := runs[i].run;
      confirmed := clean && !run.cleanupFailure;
      runs := With(runs, i, run.(status := Cancelled, cancellation := CancellationOver(confirmed)));
      WithdrawnForGood(history, id);
    }

    /** The end of `releaseResources` after a confirmed cancellation: the run is
        gone, and no other is touched. */
    method FinishRelease(id: string)
      requires Valid() && Held(runs, id).Some? && Held(runs, id).value.cancellation == CancellationOver(true)
      modifies this
      ensures Valid() && history == old(history) + [Release(id)]
      ensures Held(runs, id).None? && forall other :: other != id ==> Held(runs, other) == Held(old(runs), other)
    {
      ReleaseOutcome(history, id);
      history := history + [Release(id)];
      runs := Without(runs, Find(runs, id, 0).value);
    }
  }
}
