/** The explicit-dynamics runs a provider holds. A driver executes each run and
    reports its phases; nothing but convention keeps it from reporting one after
    it has ended. */
module ExplicitRuns {
  import opened Wrappers
  import opened RunTable

  const MAXIMUM_RUNS := 4
  const CLEANUP_UNCONFIRMED := "cleanup_unconfirmed"

  datatype Status = Queued | Running | Succeeded | Failed | Cancelled

  /** `resultDigest` identifies the stored result; `over` says that the execution
      has ended. */
  datatype Run = Run(status: Status, phase: string, clean: bool, archived: bool, aborted: bool,
    resultDigest: Option<string>, over: bool)

  /** Submission starts the execution at once. */
  const NEW_RUN := Run(Running, "queued", false, false, false, None, false)

  predicate Active(r: Run) {
    r.status.Queued? || r.status.Running?
  }

  predicate Unconfirmed(r: Run) {
    r.phase == CLEANUP_UNCONFIRMED
  }

  predicate Evictable(r: Run) {
    r.clean && (r.archived || r.status.Failed? || r.status.Cancelled?)
  }

  /** How the driver can end, a phase it reports, and the calls of callers. */
  datatype RunEvent =
    | Phase(value: string)
    | Completed(cleanupConfirmed: bool, bindingValid: bool, digest: string)
    | Threw(cleanupConfirmed: bool)
    | CancelCalled
    | Acknowledged

  function Caught(r: Run, cleanupConfirmed: bool): Run {
    var clean := r.clean || cleanupConfirmed;
    r.(clean := clean, over := true,
       status := if r.aborted && clean then Cancelled else Failed,
       phase := if clean then "failed_cleaned" else CLEANUP_UNCONFIRMED)
  }

  function RunStep(r: Run, e: RunEvent): Run {
    match e
    case Phase(value) => r.(phase := value)
    case Completed(cleanupConfirmed, bindingValid, digest) =>
      if r.over then r
      else if !cleanupConfirmed then Caught(r, false)
      else
        var cleaned := r.(clean := true);
        if r.aborted then cleaned.(status := Cancelled, over := true)
        else if !bindingValid then Caught(cleaned, false)
        else cleaned.(resultDigest := Some(digest), status := Succeeded, phase := "completed", over := true)
    case Threw(cleanupConfirmed) =>
      if r.over then r else Caught(r, cleanupConfirmed)
    case CancelCalled =>
      if r.status.Succeeded? then r else r.(aborted := true)
    case Acknowledged =>
      if r.status.Succeeded? && r.clean then r.(archived := true) else r
  }

  /** What `getResult` returns: the stored result, once the run succeeded. */
  function ResultReturned(r: Run): Option<string> {
    if !r.status.Succeeded? then None else r.resultDigest
  }

  // ---------------------------------------------------------------- all runs

  type Runs = Table<Run>

  datatype Refusal = CleanupUnconfirmed | ProviderBusy | UnsavedResultsLimit

  datatype Event =
    | Submit(newId: string)
    | On(id: string, event: RunEvent)

  /** One run that is clean and either saved or without result makes room. */
  function Evict(runs: Runs): Runs {
    if |runs| < MAXIMUM_RUNS || FirstWhere(runs, Evictable, 0).None? then runs
    else Without(runs, FirstWhere(runs, Evictable, 0).value)
  }

  /** Why a submission is refused, if it is. */
  function RefusalOf(runs: Runs): Option<Refusal> {
    if AnyWhere(runs, Unconfirmed) then Some(CleanupUnconfirmed)
    else if AnyWhere(runs, Active) then Some(ProviderBusy)
    else if |Evict(runs)| >= MAXIMUM_RUNS then Some(UnsavedResultsLimit)
    else None
  }

  function Step(runs: Runs, e: Event): Runs {
    match e
    case Submit(newId) =>
      if Find(runs, newId, 0).Some? then runs
      else
        (match RefusalOf(runs)
         case None => Evict(runs) + [Entry(newId, NEW_RUN)]
         case Some(refusal) => if refusal.UnsavedResultsLimit? then Evict(runs) else runs)
    case On(id, event) =>
      match Find(runs, id, 0)
      case None => runs
      case Some(i) => With(runs, i, RunStep(runs[i].run, event))
  }

  function After(events: seq<Event>): Runs {
    if events == [] then [] else Step(After(events[..|events| - 1]), events[|events| - 1])
  }

  ghost predicate RunInvariant(r: Run) {
    && !r.status.Queued?
    && (r.over <==> !Active(r))
    && (r.status.Succeeded? ==> r.clean && r.resultDigest.Some?)
    && (!r.over ==> !r.clean)
    && (r.archived ==> r.status.Succeeded?)
  }

  ghost predicate Invariant(runs: Runs) {
    && |runs| <= MAXIMUM_RUNS
    && UniqueIds(runs)
    && (forall i :: 0 <= i < |runs| ==> RunInvariant(runs[i].run))
    && (forall i, j :: 0 <= i < j < |runs| ==> !(Active(runs[i].run) && Active(runs[j].run)))
  }

  lemma WithoutKeeps(runs: Runs, i: nat)
    requires Invariant(runs) && i < |runs|
    ensures Invariant(Without(runs, i))
  {
  }

  lemma EvictKeeps(runs: Runs, id: string)
    requires Invariant(runs)
    ensures Invariant(Evict(runs))
    ensures Held(Evict(runs), id) == Held(runs, id) ||
      (Held(Evict(runs), id) == None && |runs| == MAXIMUM_RUNS && Held(runs, id).Some? &&
        Evictable(Held(runs, id).value))
  {
    var first := FirstWhere(runs, Evictable, 0);
    if |runs| >= MAXIMUM_RUNS && first.Some? {
      WithoutKeeps(runs, first.value);
      HeldAfterWithout(runs, first.value, id);
      HeldAt(runs, first.value);
    }
  }

  lemma EvictedIdle(runs: Runs)
    requires Invariant(runs) && !AnyWhere(runs, Active)
    ensures !AnyWhere(Evict(runs), Active)
  {
  }

  lemma AppendKeeps(room: Runs, newId: string)
    requires Invariant(room) && |room| < MAXIMUM_RUNS && !AnyWhere(room, Active) && Held(room, newId).None?
    ensures Invariant(room + [Entry(newId, NEW_RUN)])
  {
  }

  lemma SubmitKeeps(runs: Runs, newId: string)
    requires Invariant(runs) && Find(runs, newId, 0).None?
    ensures Invariant(Step(runs, Submit(newId)))
  {
    EvictKeeps(runs, newId);
    if RefusalOf(runs).None? {
      EvictedIdle(runs);
      AppendKeeps(Evict(runs), newId);
    }
  }

  lemma OnKeeps(runs: Runs, i: nat, event: RunEvent)
    requires Invariant(runs) && i < |runs|
    ensures Invariant(With(runs, i, RunStep(runs[i].run, event)))
  {
  }

  lemma StepKeepsInvariant(runs: Runs, e: Event)
    requires Invariant(runs)
    ensures Invariant(Step(runs, e))
  {
    match e
    case Submit(newId) =>
      if Find(runs, newId, 0).None? {
        SubmitKeeps(runs, newId);
      }
    case On(id, event) =>
      var i := Find(runs, id, 0);
      if i.Some? {
        OnKeeps(runs, i.value, event);
      }
  }

  /** At most four runs are held and at most one of them is active, always. */
  lemma {:induction false} Always(events: seq<Event>)
    ensures Invariant(After(events))
  {
    if events != [] {
      Always(events[..|events| - 1]);
      StepKeepsInvariant(After(events[..|events| - 1]), events[|events| - 1]);
    }
  }

  // ---------------------------------------------------------------- unsaved results

  /** The run has succeeded with this result and was not saved. */
  predicate Unsaved(r: Option<Run>, digest: string) {
    r.Some? && r.value.status.Succeeded? && r.value.resultDigest == Some(digest) && !r.value.archived
  }

  lemma UnsavedAfterSubmit(runs: Runs, newId: string, id: string, digest: string)
    requires Invariant(runs) && Unsaved(Held(runs, id), digest) && Find(runs, newId, 0).None?
    ensures Unsaved(Held(Step(runs, Submit(newId)), id), digest)
  {
    EvictKeeps(runs, id);
    EvictKeeps(runs, newId);
    HeldAfterAppend(Evict(runs), Entry(newId, NEW_RUN), id);
  }

  lemma UnsavedThroughStep(r: Run, e: RunEvent, digest: string)
    requires RunInvariant(r) && Unsaved(Some(r), digest) && !e.Acknowledged?
    ensures Unsaved(Some(RunStep(r, e)), digest)
  {
  }

  lemma UnsavedAfterOn(runs: Runs, i: nat, event: RunEvent, id: string, digest: string)
    requires Invariant(runs) && Unsaved(Held(runs, id), digest) && i < |runs|
    requires runs[i].id == id ==> !event.Acknowledged?
    ensures Unsaved(Held(With(runs, i, RunStep(runs[i].run, event)), id), digest)
  {
    HeldAt(runs, i);
    HeldAfterWith(runs, i, RunStep(runs[i].run, event), id);
    if runs[i].id == id {
      UnsavedThroughStep(runs[i].run, event, digest);
    }
  }

  lemma UnsavedAfter(runs: Runs, e: Event, id: string, digest: string)
    requires Invariant(runs) && Unsaved(Held(runs, id), digest) && e != On(id, Acknowledged)
    ensures Unsaved(Held(Step(runs, e), id), digest)
  {
    match e
    case Submit(newId) =>
      if Find(runs, newId, 0).None? {
        UnsavedAfterSubmit(runs, newId, id, digest);
      }
    case On(other, event) =>
      var i := Find(runs, other, 0);
      if i.Some? {
        UnsavedAfterOn(runs, i.value, event, id, digest);
      }
  }

  lemma AfterOne(history: seq<Event>, e: Event)
    ensures After(history + [e]) == Step(After(history), e)
  {
    assert (history + [e])[..|history|] == history;
  }

  /** A longer history, one event at a time. */
  lemma AfterOnward(before: seq<Event>, after: seq<Event>)
    ensures after == [] ==> before + after == before
    ensures after != [] ==> After(before + after) == Step(After(before + after[..|after| - 1]), after[|after| - 1])
  {
    if after != [] {
      var init, last := after[..|after| - 1], after[|after| - 1];
      LastApart(before, after);
      AfterOne(before + init, last);
    }
  }

  ghost predicate NeverAcknowledged(events: seq<Event>, id: string) {
    forall k :: 0 <= k < |events| ==> events[k] != On(id, Acknowledged)
  }

  /** Until it is acknowledged as saved, a succeeded run is never evicted and
      keeps yielding the same result. */
  lemma {:induction false} UnsavedIsKept(before: seq<Event>, after: seq<Event>, id: string, digest: string)
    requires Unsaved(Held(After(before), id), digest) && NeverAcknowledged(after, id)
    ensures Unsaved(Held(After(before + after), id), digest)
    ensures ResultReturned(Held(After(before + after), id).value) == Some(digest)
  {
    if after == [] {
      assert before + after == before;
    } else {
      UnsavedIsKept(before, after[..|after| - 1], id, digest);
      Always(before + after[..|after| - 1]);
      UnsavedAfter(After(before + after[..|after| - 1]), after[|after| - 1], id, digest);
      AfterOnward(before, after);
    }
  }

  // ---------------------------------------------------------------- unconfirmed clean-up

  /** The run has ended and its clean-up was never confirmed. */
  predicate Unclean(r: Option<Run>) {
    r.Some? && r.value.over && !r.value.clean
  }

  lemma UncleanAfter(runs: Runs, e: Event, id: string)
    requires Invariant(runs) && Unclean(Held(runs, id))
    ensures Unclean(Held(Step(runs, e), id))
    ensures !(e.On? && e.id == id && e.event.Phase?) ==>
      Held(Step(runs, e), id).value.phase == Held(runs, id).value.phase
  {
    match e
    case Submit(newId) =>
      if Find(runs, newId, 0).None? {
        EvictKeeps(runs, id);
        EvictKeeps(runs, newId);
        HeldAfterAppend(Evict(runs), Entry(newId, NEW_RUN), id);
      }
    case On(other, event) =>
      var i := Find(runs, other, 0);
      if i.Some? {
        HeldAt(runs, i.value);
        HeldAfterWith(runs, i.value, RunStep(runs[i.value].run, event), id);
      }
  }

  /** The phase reported last for a run, by whatever event list. */
  function LastPhase(events: seq<Event>, id: string): Option<string> {
    if events == [] then None
    else
      var last := events[|events| - 1];
      if last.On? && last.id == id && last.event.Phase? then Some(last.event.value)
      else LastPhase(events[..|events| - 1], id)
  }

  /** A run that ended unclean stays so, under the phase reported last. */
  lemma {:induction false} UncleanOnward(before: seq<Event>, after: seq<Event>, id: string)
    requires Unclean(Held(After(before), id))
    ensures Unclean(Held(After(before + after), id))
    ensures var was, now := Held(After(before), id).value.phase, Held(After(before + after), id).value.phase;
      now == match LastPhase(after, id) case None => was case Some(value) => value
  {
    if after == [] {
      assert before + after == before;
    } else {
      var init, last := before + after[..|after| - 1], after[|after| - 1];
      AfterOnward(before, after);
      UncleanOnward(before, after[..|after| - 1], id);
      Always(init);
      UncleanAfter(After(init), last, id);
    }
  }

  /** Reporting no phase but the unconfirmed clean-up, if any, as the last one. */
  predicate KeepsUnconfirmed(events: seq<Event>, id: string) {
    LastPhase(events, id).None? || LastPhase(events, id) == Some(CLEANUP_UNCONFIRMED)
  }

  /** Exactly when a run that ended with unconfirmed clean-up still says so: if
      the driver reported no other phase of it as the last one. */
  lemma StaysUnconfirmedExactly(before: seq<Event>, after: seq<Event>, id: string)
    requires Unclean(Held(After(before), id)) && Unconfirmed(Held(After(before), id).value)
    ensures Unclean(Held(After(before + after), id))
    ensures Unconfirmed(Held(After(before + after), id).value) <==> KeepsUnconfirmed(after, id)
  {
    UncleanOnward(before, after, id);
  }

  /** Exactly when a submission is refused for unconfirmed clean-up: if some run
      that is held says so. */
  lemma BlockedExactly(runs: Runs)
    requires UniqueIds(runs)
    ensures RefusalOf(runs) == Some(CleanupUnconfirmed) <==>
      exists id :: Held(runs, id).Some? && Unconfirmed(Held(runs, id).value)
  {
    if i :| 0 <= i < |runs| && Unconfirmed(runs[i].run) {
      HeldAt(runs, i);
      assert Held(runs, runs[i].id).Some?;
    }
  }

  /** So one run whose clean-up was not confirmed blocks every later submission
      for as long as the driver keeps silent about it. */
  lemma UncleanBlocksForGood(before: seq<Event>, after: seq<Event>, id: string)
    requires Unclean(Held(After(before), id)) && Unconfirmed(Held(After(before), id).value)
    requires KeepsUnconfirmed(after, id)
    ensures RefusalOf(After(before + after)) == Some(CleanupUnconfirmed)
  {
    StaysUnconfirmedExactly(before, after, id);
    Always(before + after);
    BlockedExactly(After(before + after));
  }

  lemma SingleRun(events: seq<Event>, id: string, r: Run)
    requires After(events) == [Entry(id, r)]
    ensures Held(After(events), id) == Some(r) && forall other :: Held(After(events), other).Some? ==> other == id
  {
    assert Find(After(events), id, 0) == Some(0);
  }

  /** A run that ended unclean, alone in the provider. */
  lemma EndsUnclean(a: string)
    ensures After([Submit(a), On(a, Threw(false))]) == [Entry(a, Caught(NEW_RUN, false))]
  {
    var events := [Submit(a), On(a, Threw(false))];
    assert events[..1] == [Submit(a)] && events[..1][..0] == [];
    assert After([]) == [];
    assert After(events[..1]) == [Entry(a, NEW_RUN)];
  }

  /** A phase reported after the end of that run undoes the block exactly when it
      is another one: the next submission is then admitted, while the clean-up of
      the first is still unconfirmed. */
  lemma LatePhaseUnblocks(a: string, value: string)
    ensures var events := [Submit(a), On(a, Threw(false)), On(a, Phase(value))];
      Unclean(Held(After(events), a)) &&
      RefusalOf(After(events)) == if value == CLEANUP_UNCONFIRMED then Some(CleanupUnconfirmed) else None
  {
    var before, late := [Submit(a), On(a, Threw(false))], [On(a, Phase(value))];
    EndsUnclean(a);
    SingleRun(before, a, Caught(NEW_RUN, false));
    assert late[..0] == [];
    StaysUnconfirmedExactly(before, late, a);
    var events := [Submit(a), On(a, Threw(false)), On(a, Phase(value))];
    assert before + late == events;
    AfterOne(before, late[0]);
    assert events == before + [late[0]];
    var runs := After(events);
    assert runs == [Entry(a, Caught(NEW_RUN, false).(phase := value))];
    SingleRun(events, a, Caught(NEW_RUN, false).(phase := value));
    BlockedExactly(runs);
  }

  // ---------------------------------------------------------------- what the calls come to

  lemma OnHeld(history: seq<Event>, id: string, e: RunEvent)
    requires Held(After(history), id).Some?
    ensures UniqueIds(After(history))
    ensures var runs := After(history);
      var i := Find(runs, id, 0).value;
      After(history + [On(id, e)]) == With(runs, i, RunStep(runs[i].run, e))
    ensures Held(After(history + [On(id, e)]), id) == Some(RunStep(Held(After(history), id).value, e))
  {
    Always(history);
    AfterOne(history, On(id, e));
    var runs := After(history);
    var i := Find(runs, id, 0).value;
    HeldAfterWith(runs, i, RunStep(runs[i].run, e), id);
  }

  /** No unsaved result is lost. */
  ghost predicate KeepsUnsaved(before: Runs, after: Runs) {
    forall id, digest :: Unsaved(Held(before, id), digest) ==> Unsaved(Held(after, id), digest)
  }

  lemma SubmitOutcome(history: seq<Event>, newId: string)
    requires Held(After(history), newId).None?
    ensures var runs, next := After(history), Step(After(history), Submit(newId));
      && |next| <= MAXIMUM_RUNS
      && Held(next, newId) == (if RefusalOf(runs).None? then Some(NEW_RUN) else None)
      && (RefusalOf(runs).Some? ==> next == runs)
      && KeepsUnsaved(runs, next)
  {
    var runs := After(history);
    Always(history);
    StepKeepsInvariant(runs, Submit(newId));
    EvictKeeps(runs, newId);
    HeldAfterAppend(Evict(runs), Entry(newId, NEW_RUN), newId);
    forall id, digest | Unsaved(Held(runs, id), digest) ensures Unsaved(Held(Step(runs, Submit(newId)), id), digest) {
      UnsavedAfter(runs, Submit(newId), id, digest);
    }
  }

  /** What a run that has ended says: that it completed, that its clean-up is unconfirmed, or
      that it failed cleanly; one cancelled on completion says what it said before. */
  function EndPhase(was: Run, e: RunEvent): string
    requires e.Completed? || e.Threw?
  {
    if !e.cleanupConfirmed then "cleanup_unconfirmed"
    else if e.Completed? && was.aborted then was.phase
    else if e.Completed? && e.bindingValid then "completed"
    else "failed_cleaned"
  }

  lemma SettleOutcome(history: seq<Event>, id: string, e: RunEvent)
    requires Held(After(history), id).Some? && !Held(After(history), id).value.over && (e.Completed? || e.Threw?)
    ensures var was, next := Held(After(history), id).value, Step(After(history), On(id, e));
      && Held(next, id) == Some(RunStep(was, e))
      && var now := RunStep(was, e);
         && now.over
         && (now.status.Succeeded? <==> e.Completed? && e.cleanupConfirmed && e.bindingValid && !was.aborted)
         && (now.status.Succeeded? ==> ResultReturned(now) == Some(e.digest))
         && now == was.(status := now.status, phase := now.phase, clean := e.cleanupConfirmed, over := true,
                        resultDigest := now.resultDigest)
         && (!now.status.Succeeded? ==> now.resultDigest == was.resultDigest)
         && (now.status.Cancelled? <==> e.cleanupConfirmed && was.aborted)
         && now.phase == EndPhase(was, e)
         && (!now.clean ==> now.status.Failed? && RefusalOf(next) == Some(CleanupUnconfirmed))
  {
    OnHeld(history, id, e);
    AfterOne(history, On(id, e));
    Always(history);
    assert RunInvariant(Held(After(history), id).value);
    Always(history + [On(id, e)]);
    BlockedExactly(Step(After(history), On(id, e)));
  }

  /** A run that leaves nothing behind and has no result to lose. */
  ghost predicate Droppable(r: Run) {
    r.clean && (r.archived || r.status.Failed? || r.status.Cancelled?)
  }

  ghost predicate SaysUnconfirmed(runs: Runs) {
    exists i :: 0 <= i < |runs| && runs[i].run.phase == "cleanup_unconfirmed"
  }

  ghost predicate HasActive(runs: Runs) {
    exists i :: 0 <= i < |runs| && (runs[i].run.status.Queued? || runs[i].run.status.Running?)
  }

  /** A submission is refused exactly if some run says its clean-up is unconfirmed, or one
      is queued or running, or four are held and none of them may be dropped, and for the
      first of these that applies. */
  lemma RefusedExactly(runs: Runs)
    requires Invariant(runs)
    ensures RefusalOf(runs) == Some(CleanupUnconfirmed) <==> SaysUnconfirmed(runs)
    ensures RefusalOf(runs) == Some(ProviderBusy) <==> !SaysUnconfirmed(runs) && HasActive(runs)
    ensures RefusalOf(runs) == Some(UnsavedResultsLimit) <==>
      && !SaysUnconfirmed(runs) && !HasActive(runs)
      && |runs| == 4 && forall i :: 0 <= i < 4 ==> !Droppable(runs[i].run)
  {
    var first := FirstWhere(runs, Evictable, 0);
    assert first.Some? ==> Droppable(runs[first.value].run);
    assert first.None? ==> forall i :: 0 <= i < |runs| ==> !Evictable(runs[i].run);
  }

  ghost predicate FirstDroppable(runs: Runs, i: nat) {
    i < |runs| && Droppable(runs[i].run) && forall k :: 0 <= k < i ==> !Droppable(runs[k].run)
  }

  /** A submission that is refused changes nothing; one that is accepted drops the first
      run that may be dropped, if four are held, and appends the new one. */
  lemma SubmittedExactly(runs: Runs, newId: string, i: nat)
    requires Invariant(runs) && Find(runs, newId, 0).None?
    ensures RefusalOf(runs).Some? ==> Step(runs, Submit(newId)) == runs
    ensures RefusalOf(runs).None? && |runs| < 4 ==> Step(runs, Submit(newId)) == runs + [Entry(newId, NEW_RUN)]
    ensures RefusalOf(runs).None? && |runs| == 4 && FirstDroppable(runs, i) ==>
      Step(runs, Submit(newId)) == runs[..i] + runs[i + 1..] + [Entry(newId, NEW_RUN)]
  {
    var first := FirstWhere(runs, Evictable, 0);
    assert first.Some? ==> Droppable(runs[first.value].run);
    assert i < |runs| && Droppable(runs[i].run) ==> Evictable(runs[i].run);
  }

  // ---------------------------------------------------------------- the provider as it is kept

  /** `history` is what has happened to the provider so far. */
  class Provider {
    var runs: Runs
    ghost var history: seq<Event>

    ghost predicate Valid()
      reads this
    {
      runs == After(history)
    }

    constructor ()
      ensures Valid() && history == []
    {
      runs, history := [], [];
    }

    /** Admitted or refused for a reason; a saved or empty run may have to go, an
        unsaved result never does. */
    method SubmitRun(newId: string) returns (refusal: Option<Refusal>)
      requires Valid() && Find(runs, newId, 0).None?
      modifies this
      ensures Valid() && history == old(history) + [Submit(newId)]
      ensures refusal == RefusalOf(old(runs)) && |runs| <= MAXIMUM_RUNS
      ensures refusal.Some? ==> runs == old(runs)
      ensures Held(runs, newId) ==
        if refusal.None? then Some(Run(Running, "queued", false, false, false, None, false)) else None
      ensures KeepsUnsaved(old(runs), runs)
    {
      SubmitOutcome(history, newId);
      AfterOne(history, Submit(newId));
      history := history + [Submit(newId)];
      var unconfirmed := Any(Unconfirmed);
      if unconfirmed {
        return Some(CleanupUnconfirmed);
      }
      var active := Any(Active);
      if active {
        return Some(ProviderBusy);
      }
      if |runs| >= MAXIMUM_RUNS {
        EvictOne();
      }
      if |runs| >= MAXIMUM_RUNS {
        return Some(UnsavedResultsLimit);
      }
      runs := runs + [Entry(newId, NEW_RUN)];
      return None;
    }

    method Any(p: Run -> bool) returns (found: bool)
      ensures found == AnyWhere(runs, p)
    {
      for i := 0 to |runs|
        invariant forall k :: 0 <= k < i ==> !p(runs[k].run)
      {
        if p(runs[i].run) {
          return true;
        }
      }
      return false;
    }

    method EvictOne()
      requires |runs| >= MAXIMUM_RUNS
      modifies this`runs
      ensures runs == Evict(old(runs))
    {
      for i := 0 to |runs|
        invariant runs == old(runs) && FirstWhere(runs, Evictable, 0) == FirstWhere(runs, Evictable, i)
      {
        if Evictable(runs[i].run) {
          runs := Without(runs, i);
          return;
        }
      }
    }

    /** The code around the driver, once the driver has returned or thrown: the
        run succeeds only cleaned, valid and unaborted, and an unclean one says so. */
    method Settle(id: string, e: RunEvent)
      requires Valid() && Held(runs, id).Some? && !Held(runs, id).value.over && (e.Completed? || e.Threw?)
      modifies this
      ensures Valid() && history == old(history) + [On(id, e)]
      ensures Held(runs, id).Some? && Held(runs, id).value.over
      ensures var was, now := Held(old(runs), id).value, Held(runs, id).value;
        && (now.status.Succeeded? <==> e.Completed? && e.cleanupConfirmed && e.bindingValid && !was.aborted)
        && (now.status.Succeeded? ==> ResultReturned(now) == Some(e.digest))
        && now == was.(status := now.status, phase := now.phase, clean := e.cleanupConfirmed, over := true,
                       resultDigest := now.resultDigest)
        && (!now.status.Succeeded? ==> now.resultDigest == was.resultDigest)
        && (now.status.Cancelled? <==> e.cleanupConfirmed && was.aborted)
        && now.phase == EndPhase(was, e)
        && (!now.clean ==> now.status.Failed? && RefusalOf(runs) == Some(CleanupUnconfirmed))
    {
      SettleOutcome(history, id, e);
      AfterOne(history, On(id, e));
      history := history + [On(id, e)];
      var i := Find(runs, id, 0).value;
      var run := runs[i].run;
      var caught := true;
      if e.Completed? && e.cleanupConfirmed {
        run := run.(clean := true);
        if run.aborted {
          run, caught := run.(status := Cancelled), false;
        } else if e.bindingValid {
          run, caught := run.(resultDigest := Some(e.digest), status := Succeeded, phase := "completed"), false;
        }
      }
      if caught {
        if e.Threw? && e.cleanupConfirmed {
          run := run.(clean := true);
        }
        run := run.(status := if run.aborted && run.clean then Cancelled else Failed,
                    phase := if run.clean then "failed_cleaned" else CLEANUP_UNCONFIRMED);
      }
      runs := With(runs, i, run.(over := true));
    }

    /** The driver's callback, whenever the driver calls it. */
    method NotePhase(id: string, value: string)
      requires Valid() && Held(runs, id).Some?
      modifies this
      ensures Valid() && history == old(history) + [On(id, Phase(value))]
      ensures Held(runs, id) == Some(Held(old(runs), id).value.(phase := value))
    {
      OnHeld(history, id, Phase(value));
      history := history + [On(id, Phase(value))];
      var i := Find(runs, id, 0).value;
      runs := With(runs, i, runs[i].run.(phase := value));
    }

    /** Cancelling a succeeded run leaves it as it is; any other cannot succeed any more. */
    method Cancel(id: string)
      requires Valid() && Held(runs, id).Some?
      modifies this
      ensures Valid() && history == old(history) + [On(id, CancelCalled)] && Held(runs, id).Some?
      ensures Held(old(runs), id).value.status.Succeeded? ==> runs == old(runs)
      ensures !Held(old(runs), id).value.status.Succeeded? ==>
        Held(runs, id).value == Held(old(runs), id).value.(aborted := true)
    {
      OnHeld(history, id, CancelCalled);
      history := history + [On(id, CancelCalled)];
      var i := Find(runs, id, 0).value;
      if runs[i].run.status != Succeeded {
        runs := With(runs, i, runs[i].run.(aborted := true));
      }
      assert runs == After(history);
    }

    /** Only a succeeded, clean run can be marked as saved. */
    method Acknowledge(id: string) returns (saved: bool)
      requires Valid() && Held(runs, id).Some?
      modifies this
      ensures Valid() && history == old(history) + [On(id, Acknowledged)] && Held(runs, id).Some?
      ensures saved <==> Held(old(runs), id).value.status.Succeeded?
      ensures saved ==> Held(runs, id).value == Held(old(runs), id).value.(archived := true)
      ensures saved ==> ResultReturned(Held(runs, id).value).Some?
      ensures !saved ==> runs == old(runs)
    {
      Always(history);
      OnHeld(history, id, Acknowledged);
      history := history + [On(id, Acknowledged)];
      var i := Find(runs, id, 0).value;
      assert RunInvariant(runs[i].run);
      saved := runs[i].run.status == Succeeded && runs[i].run.clean;
      if saved {
        runs := With(runs, i, runs[i].run.(archived := true));
      }
      assert runs == After(history);
    }
  }
}
