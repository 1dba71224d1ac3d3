/** One run of the multi-domain pipeline: meshing, then the solver, polled until
    it ends, while callers may cancel at any point between. Every `await` of the
    program is a point where other calls may intervene; what happens between two
    of them is one step. */
module PipelineV2 {
  import opened Wrappers
  import opened Ascending

  datatype Status = Queued | Running | Succeeded | Failed | Cancelled

  predicate Terminal(status: Status) {
    status.Succeeded? || status.Failed? || status.Cancelled?
  }

  /** Field data sets per domain, under the names they have for the given job. */
  datatype RunResult = RunResult(jobId: string, datasets: seq<seq<string>>)

  /** What the execution of the run is waiting for. */
  datatype Waiting = ForMesh | ForSubmission | ForAbandonment | ForStatus | ForPause | ForResult | ForNothing

  /** `cancelsPending` counts the cancel calls that wait for the solver;
      `cancelRequested` holds the solver runs that were asked to stop. */
  datatype State = State(
    status: Status, aborted: bool, solverRunId: Option<string>, result: Option<RunResult>,
    bindings: map<string, string>,
    waiting: Waiting, cancelsPending: nat, cancelRequested: set<string>)

  /** What a run keeps throughout. */
  datatype Identity = Identity(runId: string, transient: bool)

  // ---------------------------------------------------------------- renaming data sets

  /** Transient data set names start with the name of the job; the public ones
      start with the name of the run instead. */
  function PublicName(id: Identity, jobId: string, name: string): string {
    if id.transient then id.runId + (if |jobId| <= |name| then name[|jobId|..] else "") else name
  }

  function PublicNames(id: Identity, jobId: string, names: seq<string>): (r: seq<string>)
    ensures |r| == |names|
  {
    seq(|names|, k requires 0 <= k < |names| => PublicName(id, jobId, names[k]))
  }

  function BindNames(id: Identity, jobId: string, names: seq<string>): map<string, string> {
    if names == [] then map[]
    else
      var last := names[|names| - 1];
      BindNames(id, jobId, names[..|names| - 1])[PublicName(id, jobId, last) := last]
  }

  function AllNames(datasets: seq<seq<string>>): seq<string> {
    if datasets == [] then [] else AllNames(datasets[..|datasets| - 1]) + datasets[|datasets| - 1]
  }

  /** The solver's name for every public name; a later one for the same public
      name replaces an earlier one. */
  function Bindings(id: Identity, r: RunResult): map<string, string> {
    BindNames(id, r.jobId, AllNames(r.datasets))
  }

  lemma NamesNext(datasets: seq<seq<string>>, d: nat)
    requires d < |datasets|
    ensures AllNames(datasets[..d + 1]) == AllNames(datasets[..d]) + datasets[d]
  {
    assert datasets[..d + 1][..d] == datasets[..d];
  }

  function Published(id: Identity, r: RunResult): RunResult {
    RunResult(id.runId, seq(|r.datasets|, d requires 0 <= d < |r.datasets| => PublicNames(id, r.jobId, r.datasets[d])))
  }

  // ---------------------------------------------------------------- the steps

  datatype SolverStatus = SolverQueued | SolverRunning | SolverSucceeded | SolverFailed | SolverCancelled

  /** What the run can meet next: an answer to what it waits for, or a call of
      `cancel`. A missing answer stands for a rejection. */
  datatype Event =
    | Meshed(valid: bool)
    | Submitted(solverRunId: Option<string>, deadlinePassed: bool)
    | Abandoned
    | Answered(reply: Option<SolverStatus>)
    | Paused(deadlinePassed: bool)
    | Fetched(fetched: Option<Option<RunResult>>, valid: bool, publishedValid: bool)
    | CancelCalled
    | CancelAnswered

  const INITIAL := State(Running, false, None, None, map[], ForMesh, 0, {})

  /** The handler around the whole execution. */
  function Caught(s: State): State {
    if s.aborted then s.(waiting := ForNothing)
    else s.(result := None, bindings := map[], status := Failed, waiting := ForNothing)
  }

  /** The head of the polling loop. */
  function LoopHead(s: State, deadlinePassed: bool): State
    requires s.solverRunId.Some?
  {
    if deadlinePassed then s.(waiting := ForResult)
    else if s.aborted then Abandon(s)
    else s.(waiting := ForStatus)
  }

  function Abandon(s: State): State
    requires s.solverRunId.Some?
  {
    s.(cancelRequested := s.cancelRequested + {s.solverRunId.value}, waiting := ForAbandonment)
  }

  function AfterStatus(s: State, reply: SolverStatus): State {
    var noted := s.(status := if reply.SolverQueued? then Queued else Running);
    if reply.SolverFailed? || reply.SolverCancelled? then Caught(noted)
    else if reply.SolverSucceeded? then noted.(waiting := ForResult)
    else noted.(waiting := ForPause)
  }

  function AfterResult(id: Identity, s: State, reply: Option<RunResult>, valid: bool, publishedValid: bool): State {
    if reply.None? || !valid || s.solverRunId != Some(reply.value.jobId) then Caught(s)
    else
      var stored := s.(bindings := Bindings(id, reply.value), result := Some(Published(id, reply.value)));
      if !publishedValid then Caught(stored) else stored.(status := Succeeded, waiting := ForNothing)
  }

  function CancelCall(s: State): State {
    if Terminal(s.status) then s
    else if s.solverRunId.Some? then
      s.(aborted := true, cancelRequested := s.cancelRequested + {s.solverRunId.value},
        cancelsPending := s.cancelsPending + 1)
    else s.(aborted := true, result := None, bindings := map[], status := Cancelled)
  }

  /** What an event does; one that does not answer what is waited for cannot happen. */
  function Step(id: Identity, s: State, e: Event): State {
    match e
    case Meshed(valid) =>
      if !s.waiting.ForMesh? then s
      else if !valid then Caught(s)
      else if s.aborted then s.(waiting := ForNothing)
      else s.(status := Running, waiting := ForSubmission)
    case Submitted(solverRunId, deadlinePassed) =>
      if !s.waiting.ForSubmission? then s
      else if solverRunId.None? then Caught(s)
      else
        var known := s.(solverRunId := solverRunId);
        if s.aborted then Abandon(known) else LoopHead(known, deadlinePassed)
    case Abandoned =>
      if !s.waiting.ForAbandonment? then s else s.(waiting := ForNothing)
    case Answered(reply) =>
      if !s.waiting.ForStatus? then s
      else if reply.None? then Caught(s)
      else if s.aborted then s.(waiting := ForNothing)
      else AfterStatus(s, reply.value)
    case Paused(deadlinePassed) =>
      if !s.waiting.ForPause? || s.solverRunId.None? then s else LoopHead(s, deadlinePassed)
    case Fetched(fetched, valid, publishedValid) =>
      if !s.waiting.ForResult? then s
      else if fetched.None? then Caught(s)
      else if s.aborted then s.(waiting := ForNothing)
      else AfterResult(id, s, fetched.value, valid, publishedValid)
    case CancelCalled => CancelCall(s)
    case CancelAnswered =>
      if s.cancelsPending == 0 then s
      else s.(cancelsPending := s.cancelsPending - 1, result := None, bindings := map[], status := Cancelled)
  }

  function Run(id: Identity, events: seq<Event>): State {
    if events == [] then INITIAL
    else Step(id, Run(id, events[..|events| - 1]), events[|events| - 1])
  }

  lemma RunOne(id: Identity, history: seq<Event>, e: Event)
    ensures Run(id, history + [e]) == Step(id, Run(id, history), e)
  {
    assert (history + [e])[..|history|] == history;
  }

  /** A longer history, one event at a time. */
  lemma RunOnward(id: Identity, before: seq<Event>, after: seq<Event>)
    ensures after == [] ==> before + after == before
    ensures after != [] ==>
      Run(id, before + after) == Step(id, Run(id, before + after[..|after| - 1]), after[|after| - 1])
  {
    if after != [] {
      var init, last := after[..|after| - 1], after[|after| - 1];
      LastApart(before, after);
      RunOne(id, before + init, last);
    }
  }

  // ---------------------------------------------------------------- what every interleaving keeps

  ghost predicate Invariant(s: State) {
    && (s.result.Some? <==> s.status.Succeeded?)
    && (s.result.None? ==> s.bindings == map[])
    && (s.status.Succeeded? || s.status.Failed? ==> s.waiting.ForNothing? && !s.aborted)
    && (s.waiting.ForNothing? ==> s.aborted || s.status.Succeeded? || s.status.Failed?)
    && (s.status.Cancelled? || s.waiting.ForAbandonment? ==> s.aborted)
    && (s.aborted && s.cancelsPending == 0 ==> s.status.Cancelled?)
    && (s.cancelsPending > 0 ==> s.aborted && s.solverRunId.Some?)
    && (s.aborted && s.solverRunId.Some? ==> s.solverRunId.value in s.cancelRequested)
    && (s.waiting.ForMesh? || s.waiting.ForSubmission? ==> s.solverRunId.None?)
    && (s.waiting.ForAbandonment? || s.waiting.ForStatus? || s.waiting.ForPause? || s.waiting.ForResult? ==>
      s.solverRunId.Some?)
  }

  lemma StepKeepsInvariant(id: Identity, s: State, e: Event)
    requires Invariant(s)
    ensures Invariant(Step(id, s, e))
  {
  }

  lemma {:induction false} Always(id: Identity, events: seq<Event>)
    ensures Invariant(Run(id, events))
  {
    if events != [] {
      Always(id, events[..|events| - 1]);
      StepKeepsInvariant(id, Run(id, events[..|events| - 1]), events[|events| - 1]);
    }
  }

  /** A result is there exactly while the run counts as succeeded. */
  lemma ResultExactlyOnSuccess(id: Identity, events: seq<Event>)
    ensures Run(id, events).result.Some? <==> Run(id, events).status.Succeeded?
  {
    Always(id, events);
  }

  /** Ended the same way, with the same result and, if it succeeded, the same names. */
  ghost predicate SameEnd(s: State, t: State) {
    t.status == s.status && t.result == s.result && (s.status.Succeeded? ==> t.bindings == s.bindings)
  }

  lemma EndStays(id: Identity, s: State, e: Event)
    requires Invariant(s) && Terminal(s.status)
    ensures SameEnd(s, Step(id, s, e))
  {
  }

  /** From wherever a run has ended, nothing that follows changes how it ended,
      its result or its data set names. */
  lemma {:induction false} EndIsFinal(id: Identity, before: seq<Event>, after: seq<Event>)
    requires Terminal(Run(id, before).status)
    ensures SameEnd(Run(id, before), Run(id, before + after))
  {
    RunOnward(id, before, after);
    if after != [] {
      var init := after[..|after| - 1];
      EndIsFinal(id, before, init);
      Always(id, before + init);
      EndStays(id, Run(id, before + init), after[|after| - 1]);
    }
  }

  predicate IsCancelEvent(e: Event) {
    e.CancelCalled? || e.CancelAnswered?
  }

  ghost predicate NoCancelIn(events: seq<Event>) {
    forall k :: 0 <= k < |events| ==> !IsCancelEvent(events[k])
  }

  lemma MuteStep(id: Identity, s: State, e: Event)
    requires Invariant(s) && s.aborted
    ensures Step(id, s, e).aborted && Step(id, s, e).result.None?
    ensures Step(id, s, e).status == s.status || (IsCancelEvent(e) && Step(id, s, e).status.Cancelled?)
  {
  }

  /** Once aborted, a run never has a result and the execution never writes its
      status: only the rest of a cancel does, and makes it cancelled. */
  lemma {:induction false} AbortedExecutionIsMute(id: Identity, before: seq<Event>, after: seq<Event>)
    requires Run(id, before).aborted
    ensures var s, t := Run(id, before), Run(id, before + after);
      && t.aborted && t.result.None?
      && (t.status == s.status || t.status.Cancelled?) && (NoCancelIn(after) ==> t.status == s.status)
  {
    RunOnward(id, before, after);
    Always(id, before);
    if after != [] {
      var init := after[..|after| - 1];
      AbortedExecutionIsMute(id, before, init);
      Always(id, before + init);
      MuteStep(id, Run(id, before + init), after[|after| - 1]);
    }
  }

  /** Execution over, no cancel under way, and some cancel was effective: the run
      is cancelled, has no result, and its solver run, if any, was asked to stop,
      even one that was still being submitted. */
  lemma CancelledAtRest(id: Identity, events: seq<Event>)
    requires Run(id, events).waiting.ForNothing? && Run(id, events).cancelsPending == 0 && Run(id, events).aborted
    ensures Run(id, events).status.Cancelled? && Run(id, events).result.None?
    ensures Run(id, events).solverRunId.Some? ==> Run(id, events).solverRunId.value in Run(id, events).cancelRequested
  {
    Always(id, events);
  }

  /** Only a cancelled run's solver is ever asked to stop, and it is the run's own. */
  lemma {:induction false} OnlyOwnSolverAsked(id: Identity, events: seq<Event>)
    ensures Run(id, events).cancelRequested != {} ==>
      Run(id, events).aborted && Run(id, events).solverRunId.Some? &&
        Run(id, events).cancelRequested == {Run(id, events).solverRunId.value}
  {
    Always(id, events);
    if events != [] {
      OnlyOwnSolverAsked(id, events[..|events| - 1]);
      Always(id, events[..|events| - 1]);
    }
  }

  // ---------------------------------------------------------------- data set names

  lemma {:induction false} BoundNames(id: Identity, jobId: string, names: seq<string>, k: nat)
    requires k < |names| && Distinct(PublicNames(id, jobId, names))
    ensures PublicName(id, jobId, names[k]) in BindNames(id, jobId, names)
    ensures BindNames(id, jobId, names)[PublicName(id, jobId, names[k])] == names[k]
  {
    var init := names[..|names| - 1];
    if k < |init| {
      var public := PublicNames(id, jobId, names);
      assert PublicNames(id, jobId, init) == public[..|init|];
      BoundNames(id, jobId, init, k);
      assert public[k] != public[|init|];
    }
  }

  /** Where the k-th name of domain `d` stands in the list of all names. */
  lemma {:induction false} NameAt(datasets: seq<seq<string>>, d: nat, k: nat) returns (i: nat)
    requires d < |datasets| && k < |datasets[d]|
    ensures i == |AllNames(datasets[..d])| + k < |AllNames(datasets[..d + 1])| <= |AllNames(datasets)|
    ensures AllNames(datasets)[i] == datasets[d][k]
  {
    var init := datasets[..|datasets| - 1];
    if d < |init| {
      i := NameAt(init, d, k);
      assert init[..d] == datasets[..d] && init[..d + 1] == datasets[..d + 1];
    } else {
      assert datasets[..d] == init && datasets[..d + 1] == datasets;
      i := |AllNames(init)| + k;
    }
  }

  lemma {:induction false} NamesBefore(datasets: seq<seq<string>>, d: nat)
    requires d <= |datasets|
    ensures |AllNames(datasets[..d])| <= |AllNames(datasets)|
  {
    if d == |datasets| {
      assert datasets[..d] == datasets;
    } else {
      NamesBefore(datasets[..|datasets| - 1], d);
      assert datasets[..|datasets| - 1][..d] == datasets[..d];
    }
  }

  lemma DomainsApart(datasets: seq<seq<string>>, d: nat, e: nat)
    requires d < e <= |datasets|
    ensures |AllNames(datasets[..d + 1])| <= |AllNames(datasets[..e])|
  {
    NamesBefore(datasets[..e], d + 1);
    assert datasets[..e][..d + 1] == datasets[..d + 1];
  }

  lemma NamesApart(datasets: seq<seq<string>>, d: nat, k: nat, e: nat, l: nat)
    requires Distinct(AllNames(datasets)) && d < e < |datasets| && k < |datasets[d]| && l < |datasets[e]|
    ensures datasets[d][k] != datasets[e][l]
  {
    var i := NameAt(datasets, d, k);
    var j := NameAt(datasets, e, l);
    DomainsApart(datasets, d, e);
    assert i < j;
  }

  /** Where no name occurs twice, no two domains share one. */
  lemma OneDomainPerName(datasets: seq<seq<string>>, d: nat, e: nat, name: string)
    requires Distinct(AllNames(datasets)) && d < e < |datasets| && name in datasets[d]
    ensures name !in datasets[e]
  {
    var k :| 0 <= k < |datasets[d]| && datasets[d][k] == name;
    forall l | 0 <= l < |datasets[e]| ensures datasets[e][l] != name {
      NamesApart(datasets, d, k, e, l);
    }
  }

  lemma PublicNamesAppend(id: Identity, jobId: string, a: seq<string>, b: seq<string>)
    ensures PublicNames(id, jobId, a + b) == PublicNames(id, jobId, a) + PublicNames(id, jobId, b)
  {
  }

  lemma {:induction false} AllPublicNames(id: Identity, r: RunResult)
    ensures AllNames(Published(id, r).datasets) == PublicNames(id, r.jobId, AllNames(r.datasets))
    decreases |r.datasets|
  {
    if r.datasets != [] {
      var init, last := r.(datasets := r.datasets[..|r.datasets| - 1]), r.datasets[|r.datasets| - 1];
      AllPublicNames(id, init);
      PublicNamesAppend(id, r.jobId, AllNames(init.datasets), last);
      var datasets := Published(id, r).datasets;
      assert datasets[..|datasets| - 1] == Published(id, init).datasets;
    }
  }

  /** If the public names are distinct, each leads back to the solver's name it
      was made from. */
  lemma BindingsInvert(id: Identity, r: RunResult, d: nat, k: nat)
    requires d < |r.datasets| && k < |r.datasets[d]|
    requires Distinct(PublicNames(id, r.jobId, AllNames(r.datasets)))
    ensures Published(id, r).datasets[d][k] in Bindings(id, r)
    ensures Bindings(id, r)[Published(id, r).datasets[d][k]] == r.datasets[d][k]
  {
    var i := NameAt(r.datasets, d, k);
    BoundNames(id, r.jobId, AllNames(r.datasets), i);
  }

  /** Names that all start with the job stay distinct when the run takes its place. */
  lemma RenamingKeepsDistinct(id: Identity, jobId: string, names: seq<string>)
    requires Distinct(names) && forall k :: 0 <= k < |names| ==> jobId <= names[k]
    ensures Distinct(PublicNames(id, jobId, names))
  {
    forall i, j | 0 <= i < j < |names| ensures PublicNames(id, jobId, names)[i] != PublicNames(id, jobId, names)[j] {
      assert names[i] == jobId + names[i][|jobId|..];
      assert names[j] == jobId + names[j][|jobId|..];
      if id.transient {
        var a, b := names[i][|jobId|..], names[j][|jobId|..];
        assert (id.runId + a)[|id.runId|..] == a && (id.runId + b)[|id.runId|..] == b;
      }
    }
  }

  /** A run that succeeded holds what its own solver run returned, published, and
      the bindings made with it. */
  lemma {:induction false} SuccessIsPublished(id: Identity, events: seq<Event>) returns (r: RunResult)
    requires Run(id, events).status.Succeeded?
    ensures Run(id, events).solverRunId == Some(r.jobId)
    ensures Run(id, events).result == Some(Published(id, r)) && Run(id, events).bindings == Bindings(id, r)
  {
    var init, last := events[..|events| - 1], events[|events| - 1];
    Always(id, init);
    if Run(id, init).status.Succeeded? {
      r := SuccessIsPublished(id, init);
    } else {
      r := last.fetched.value.value;
    }
  }

  /** What a solver's name becomes: of a transient run, the run's own name takes the
      place of the first characters, as many as the job's name has; else nothing changes. */
  ghost predicate Renamed(id: Identity, jobId: string, own: string, public: string) {
    && (!id.transient ==> public == own)
    && (id.transient ==> id.runId <= public)
    && (id.transient && |own| < |jobId| ==> public == id.runId)
    && (id.transient ==> forall head, rest :: |head| == |jobId| && own == head + rest ==> public == id.runId + rest)
  }

  lemma PublicNameIsRenamed(id: Identity, jobId: string, own: string)
    ensures Renamed(id, jobId, own, PublicName(id, jobId, own))
  {
    forall head, rest | |head| == |jobId| && own == head + rest
      ensures id.transient ==> PublicName(id, jobId, own) == id.runId + rest
    {
      assert own[|jobId|..] == rest;
    }
  }

  /** The result of a run that succeeded bears the run's name and has, domain by domain,
      the data sets of its own solver run, renamed. */
  lemma SuccessNamesDatasets(id: Identity, events: seq<Event>) returns (r: RunResult)
    requires Run(id, events).status.Succeeded?
    ensures Run(id, events).solverRunId == Some(r.jobId) && Run(id, events).result.Some?
    ensures Run(id, events).result.value.jobId == id.runId
    ensures |Run(id, events).result.value.datasets| == |r.datasets|
    ensures forall d :: 0 <= d < |r.datasets| ==>
      && |Run(id, events).result.value.datasets[d]| == |r.datasets[d]|
      && forall k :: 0 <= k < |r.datasets[d]| ==>
        Renamed(id, r.jobId, r.datasets[d][k], Run(id, events).result.value.datasets[d][k])
  {
    r := SuccessIsPublished(id, events);
    forall d, k | 0 <= d < |r.datasets| && 0 <= k < |r.datasets[d]|
      ensures Renamed(id, r.jobId, r.datasets[d][k], Published(id, r).datasets[d][k])
    {
      PublicNameIsRenamed(id, r.jobId, r.datasets[d][k]);
    }
  }

  // ---------------------------------------------------------------- reading a data set

  function FindDomain(datasets: seq<seq<string>>, name: string, d: nat): (r: Option<nat>)
    requires d <= |datasets|
    ensures r.Some? ==> d <= r.value < |datasets| && name in datasets[r.value]
    decreases |datasets| - d
  {
    if d == |datasets| then None
    else if name in datasets[d] then Some(d)
    else FindDomain(datasets, name, d + 1)
  }

  datatype FieldQuery = FieldQuery(domain: nat, solverRunId: string, solverName: string)

  /** What the solver is asked for when a public data set is read, if anything. */
  function AskedOf(s: State, name: string): Option<FieldQuery> {
    if s.result.None? then None
    else
      match FindDomain(s.result.value.datasets, name, 0)
      case None => None
      case Some(domain) =>
        if s.solverRunId.None? || !s.status.Succeeded? || name !in s.bindings then None
        else Some(FieldQuery(domain, s.solverRunId.value, s.bindings[name]))
  }

  /** When the page arrives the result it is checked against is still there, and
      still the same, whatever happened meanwhile. */
  lemma ResultOutlivesRead(id: Identity, before: seq<Event>, after: seq<Event>, name: string)
    requires AskedOf(Run(id, before), name).Some?
    ensures Run(id, before + after).result == Run(id, before).result && Run(id, before).result.Some?
    ensures AskedOf(Run(id, before + after), name) == AskedOf(Run(id, before), name)
  {
    EndIsFinal(id, before, after);
    SolverRunStays(id, before, after);
  }

  lemma SolverRunKept(id: Identity, s: State, e: Event)
    requires Invariant(s) && s.solverRunId.Some?
    ensures Step(id, s, e).solverRunId == s.solverRunId
  {
  }

  lemma {:induction false} SolverRunStays(id: Identity, before: seq<Event>, after: seq<Event>)
    requires Run(id, before).solverRunId.Some?
    ensures Run(id, before + after).solverRunId == Run(id, before).solverRunId
  {
    RunOnward(id, before, after);
    if after != [] {
      var init := after[..|after| - 1];
      SolverRunStays(id, before, init);
      Always(id, before + init);
      SolverRunKept(id, Run(id, before + init), after[|after| - 1]);
    }
  }

  lemma {:induction false} FoundFrom(datasets: seq<seq<string>>, name: string, from: nat, d: nat)
    requires from <= d < |datasets| && name in datasets[d] && Distinct(AllNames(datasets))
    ensures FindDomain(datasets, name, from) == Some(d)
    decreases |datasets| - from
  {
    if from < d {
      if name in datasets[from] {
        OneDomainPerName(datasets, from, d, name);
      }
      FoundFrom(datasets, name, from + 1, d);
    }
  }

  /** Reading a published data set asks the run's own solver run for the data set
      it was published from, and finds the domain that data set belongs to. */
  lemma ReadAsksForOriginal(id: Identity, events: seq<Event>, r: RunResult, d: nat, k: nat)
    requires Run(id, events).status.Succeeded?
    requires Run(id, events).solverRunId == Some(r.jobId)
    requires Run(id, events).result == Some(Published(id, r)) && Run(id, events).bindings == Bindings(id, r)
    requires d < |r.datasets| && k < |r.datasets[d]|
    requires Distinct(PublicNames(id, r.jobId, AllNames(r.datasets)))
    ensures AskedOf(Run(id, events), Published(id, r).datasets[d][k]) == Some(FieldQuery(d, r.jobId, r.datasets[d][k]))
  {
    BindingsInvert(id, r, d, k);
    AllPublicNames(id, r);
    FoundFrom(Published(id, r).datasets, Published(id, r).datasets[d][k], 0, d);
  }

  lemma {:induction false} BoundLeadsBack(id: Identity, jobId: string, names: seq<string>, name: string)
    ensures name in BindNames(id, jobId, names) <==> name in PublicNames(id, jobId, names)
    ensures name in BindNames(id, jobId, names) ==> PublicName(id, jobId, BindNames(id, jobId, names)[name]) == name
  {
    if names != [] {
      var init, public := names[..|names| - 1], PublicNames(id, jobId, names);
      BoundLeadsBack(id, jobId, init, name);
      assert public == PublicNames(id, jobId, init) + [public[|init|]];
    }
  }

  ghost predicate Listed(datasets: seq<seq<string>>, name: string) {
    exists d :: 0 <= d < |datasets| && name in datasets[d]
  }

  lemma {:induction false} FindsListed(datasets: seq<seq<string>>, name: string, from: nat)
    requires from <= |datasets|
    ensures FindDomain(datasets, name, from).Some? <==> exists d :: from <= d < |datasets| && name in datasets[d]
    decreases |datasets| - from
  {
    if from < |datasets| && name !in datasets[from] {
      FindsListed(datasets, name, from + 1);
    }
  }

  lemma ListedIsAmongAll(datasets: seq<seq<string>>, name: string)
    requires Listed(datasets, name)
    ensures name in AllNames(datasets)
  {
    var d :| 0 <= d < |datasets| && name in datasets[d];
    var k :| 0 <= k < |datasets[d]| && datasets[d][k] == name;
    var i := NameAt(datasets, d, k);
  }

  /** A read asks the solver exactly if the run succeeded and lists the name; what
      it asks for is the run's own data set that was given this name. */
  lemma ReadsWhatIsListed(id: Identity, events: seq<Event>, name: string)
    ensures var s := Run(id, events);
      && (AskedOf(s, name).Some? <==> s.status.Succeeded? && s.result.Some? && Listed(s.result.value.datasets, name))
      && (AskedOf(s, name).Some? ==>
            var q := AskedOf(s, name).value;
            && q.domain < |s.result.value.datasets| && name in s.result.value.datasets[q.domain]
            && s.solverRunId == Some(q.solverRunId) && PublicName(id, q.solverRunId, q.solverName) == name)
  {
    var s := Run(id, events);
    Always(id, events);
    if s.status.Succeeded? {
      var r := SuccessIsPublished(id, events);
      var datasets := s.result.value.datasets;
      FindsListed(datasets, name, 0);
      AllPublicNames(id, r);
      BoundLeadsBack(id, r.jobId, AllNames(r.datasets), name);
      if Listed(datasets, name) {
        ListedIsAmongAll(datasets, name);
      }
    }
  }

  // ---------------------------------------------------------------- what the calls come to

  lemma AbortKept(id: Identity, s: State, e: Event)
    requires s.aborted
    ensures Step(id, s, e).aborted
  {
  }

  lemma {:induction false} AbortedStays(id: Identity, before: seq<Event>, after: seq<Event>)
    requires Run(id, before).aborted
    ensures Run(id, before + after).aborted
  {
    RunOnward(id, before, after);
    if after != [] {
      AbortedStays(id, before, after[..|after| - 1]);
      AbortKept(id, Run(id, before + after[..|after| - 1]), after[|after| - 1]);
    }
  }

  /** Whatever follows, the run never has a result. */
  ghost predicate NeverSucceeds(id: Identity, history: seq<Event>) {
    forall after :: !Run(id, history + after).status.Succeeded? && Run(id, history + after).result.None?
  }

  lemma AbortedNeverSucceeds(id: Identity, history: seq<Event>)
    requires Run(id, history).aborted
    ensures NeverSucceeds(id, history)
  {
    forall after ensures !Run(id, history + after).status.Succeeded? && Run(id, history + after).result.None? {
      AbortedStays(id, history, after);
      Always(id, history + after);
    }
  }

  /** Whatever follows, the run ends as it has ended. */
  ghost predicate EndsAs(id: Identity, history: seq<Event>, status: Status) {
    forall after :: Run(id, history + after).status == status
  }

  lemma EndedForGood(id: Identity, history: seq<Event>)
    requires Terminal(Run(id, history).status)
    ensures EndsAs(id, history, Run(id, history).status)
  {
    forall after ensures Run(id, history + after).status == Run(id, history).status {
      EndIsFinal(id, history, after);
    }
  }

  /** What can be said of the future of a run. */
  lemma Outlook(id: Identity, history: seq<Event>)
    ensures Terminal(Run(id, history).status) ==> EndsAs(id, history, Run(id, history).status)
    ensures Run(id, history).aborted ==> NeverSucceeds(id, history)
  {
    if Terminal(Run(id, history).status) {
      EndedForGood(id, history);
    }
    if Run(id, history).aborted {
      AbortedNeverSucceeds(id, history);
    }
  }

  // ---------------------------------------------------------------- the run as it is kept

  /** The fields of a run and the stretches of code between two awaits; `history`
      is what has happened to the run so far. */
  class Pipeline {
    const id: Identity
    var status: Status
    var aborted: bool
    var solverRunId: Option<string>
    var result: Option<RunResult>
    var fieldDatasetBindings: map<string, string>
    ghost var waiting: Waiting
    ghost var cancelsPending: nat
    ghost var cancelRequested: set<string>
    ghost var history: seq<Event>

    ghost function Now(): State
      reads this
    {
      State(status, aborted, solverRunId, result, fieldDatasetBindings, waiting, cancelsPending, cancelRequested)
    }

    ghost predicate Valid()
      reads this
    {
      Now() == Run(id, history)
    }

    /** Submission starts the execution, which runs until it waits for the mesh. */
    constructor (id: Identity)
      ensures this.id == id && Valid() && history == [] && status.Running? && waiting.ForMesh? && !aborted
      ensures solverRunId.None? && result.None? && fieldDatasetBindings == map[]
      ensures cancelsPending == 0 && cancelRequested == {}
    {
      this.id := id;
      status, aborted, solverRunId, result, fieldDatasetBindings := Running, false, None, None, map[];
      waiting, cancelsPending, cancelRequested := ForMesh, 0, {};
      history := [];
    }

    /** Every event goes on record before it is handled. */
    ghost method Record(e: Event)
      requires Valid()
      modifies this`history
      ensures history == old(history) + [e] && Run(id, history) == Step(id, Now(), e) && Invariant(Now())
      ensures Terminal(Run(id, history).status) ==> EndsAs(id, history, Run(id, history).status)
      ensures Run(id, history).aborted ==> NeverSucceeds(id, history)
    {
      Always(id, history);
      RunOne(id, history, e);
      history := history + [e];
      Outlook(id, history);
    }

    method Catch()
      modifies this
      ensures Now() == Caught(old(Now())) && history == old(history)
    {
      waiting := ForNothing;
      if aborted {
        return;
      }
      result, fieldDatasetBindings, status := None, map[], Failed;
    }

    /** The run goes on to the solver exactly with a valid model and no cancel. */
    method AfterMesh(valid: bool)
      requires Valid() && waiting.ForMesh?
      modifies this
      ensures Valid() && history == old(history) + [Meshed(valid)] && aborted == old(aborted)
      ensures waiting.ForSubmission? <==> valid && !aborted
      ensures waiting.ForNothing? <==> !valid || aborted
      ensures if aborted then status == old(status) else status == if valid then Running else Failed
    {
      Record(Meshed(valid));
      if !valid {
        Catch();
        return;
      }
      if aborted {
        waiting := ForNothing;
        return;
      }
      status, waiting := Running, ForSubmission;
    }

    /** The solver run is known from now on. If the run was cancelled meanwhile the
        solver run is asked to stop and the status left alone. */
    method AfterSubmission(submission: Option<string>, deadlinePassed: bool)
      requires Valid() && waiting.ForSubmission?
      modifies this
      ensures Valid() && history == old(history) + [Submitted(submission, deadlinePassed)]
      ensures aborted == old(aborted) && solverRunId == submission && result.None?
      ensures aborted ==> status == old(status) && NeverSucceeds(id, history)
      ensures aborted && submission.Some? ==> submission.value in cancelRequested
      ensures !aborted ==> status == (if submission.None? then Failed else old(status)) && cancelRequested == {}
      ensures waiting == if submission.None? then ForNothing else if aborted then ForAbandonment
                         else if deadlinePassed then ForResult else ForStatus
      ensures status.Failed? ==> EndsAs(id, history, Failed)
    {
      ghost var before := history;
      Record(Submitted(submission, deadlinePassed));
      OnlyOwnSolverAsked(id, before);
      if submission.None? {
        Catch();
        return;
      }
      solverRunId := submission;
      if aborted {
        cancelRequested, waiting := cancelRequested + {submission.value}, ForAbandonment;
        return;
      }
      AtLoopHead(deadlinePassed);
    }

    method AtLoopHead(deadlinePassed: bool)
      requires solverRunId.Some?
      modifies this
      ensures Now() == LoopHead(old(Now()), deadlinePassed) && history == old(history)
    {
      if deadlinePassed {
        waiting := ForResult;
      } else if aborted {
        cancelRequested, waiting := cancelRequested + {solverRunId.value}, ForAbandonment;
      } else {
        waiting := ForStatus;
      }
    }

    /** After a pause the loop goes on unless the run was cancelled or is out of time. */
    method AfterPause(deadlinePassed: bool)
      requires Valid() && waiting.ForPause?
      modifies this
      ensures Valid() && history == old(history) + [Paused(deadlinePassed)]
      ensures status == old(status) && result.None? && solverRunId == old(solverRunId)
      ensures waiting == if deadlinePassed then ForResult else if aborted then ForAbandonment else ForStatus
      ensures waiting.ForAbandonment? ==> solverRunId.Some? && solverRunId.value in cancelRequested
    {
      Record(Paused(deadlinePassed));
      AtLoopHead(deadlinePassed);
    }

    /** The request to stop has been answered: the execution is over. */
    method AfterAbandonment()
      requires Valid() && waiting.ForAbandonment?
      modifies this
      ensures Valid() && history == old(history) + [Abandoned] && waiting.ForNothing?
      ensures aborted && status == old(status) && result.None?
      ensures solverRunId.Some? && solverRunId.value in cancelRequested
    {
      Record(Abandoned);
      waiting := ForNothing;
    }

    /** A status of the solver is passed on, an end of the solver ends the loop, and
        a cancelled run takes no notice of either. */
    method AfterAnswer(reply: Option<SolverStatus>)
      requires Valid() && waiting.ForStatus?
      modifies this
      ensures Valid() && history == old(history) + [Answered(reply)] && aborted == old(aborted)
      ensures result.None? && solverRunId == old(solverRunId) && cancelRequested == old(cancelRequested)
      ensures waiting.ForResult? <==> !aborted && reply == Some(SolverSucceeded)
      ensures aborted ==> status == old(status) && waiting.ForNothing? && NeverSucceeds(id, history)
      ensures status.Failed? ==> EndsAs(id, history, Failed)
      ensures !aborted ==> (status.Failed? <==> reply in {None, Some(SolverFailed), Some(SolverCancelled)})
      ensures !aborted ==> (status.Queued? <==> reply == Some(SolverQueued))
      ensures waiting.ForPause? <==> !aborted && reply in {Some(SolverQueued), Some(SolverRunning)}
      ensures waiting.ForPause? || waiting.ForResult? || waiting.ForNothing?
      ensures waiting.ForPause? || waiting.ForResult? ==> status in {Queued, Running}
    {
      Record(Answered(reply));
      if reply.None? {
        Catch();
        return;
      }
      if aborted {
        waiting := ForNothing;
        return;
      }
      status := if reply.value.SolverQueued? then Queued else Running;
      if reply.value.SolverFailed? || reply.value.SolverCancelled? {
        Catch();
        return;
      }
      waiting := if reply.value.SolverSucceeded? then ForResult else ForPause;
    }

    /** The execution ends: succeeded exactly with a valid result of the run's own
        solver run and no cancel, and then with that result, published. */
    method AfterFetch(fetched: Option<Option<RunResult>>, valid: bool, publishedValid: bool)
      requires Valid() && waiting.ForResult?
      modifies this
      ensures Valid() && history == old(history) + [Fetched(fetched, valid, publishedValid)] && waiting.ForNothing?
      ensures aborted == old(aborted) && solverRunId == old(solverRunId)
      ensures result.Some? <==> status.Succeeded?
      ensures status.Succeeded? <==>
        !aborted && valid && publishedValid && fetched.Some? && fetched.value.Some? &&
          solverRunId == Some(fetched.value.value.jobId)
      ensures status.Succeeded? ==> result == Some(Published(id, fetched.value.value))
      ensures status.Succeeded? ==> fieldDatasetBindings == Bindings(id, fetched.value.value)
      ensures !aborted && !status.Succeeded? ==> status.Failed? && fieldDatasetBindings == map[]
      ensures if aborted then status == old(status) else EndsAs(id, history, status)
    {
      Record(Fetched(fetched, valid, publishedValid));
      if fetched.None? {
        Catch();
        return;
      }
      if aborted {
        waiting := ForNothing;
        return;
      }
      if fetched.value.None? || !valid || solverRunId != Some(fetched.value.value.jobId) {
        Catch();
        return;
      }
      var solverResult := fetched.value.value;
      var datasets := Rebind(solverResult);
      result := Some(RunResult(id.runId, datasets));
      if !publishedValid {
        Catch();
        return;
      }
      status, waiting := Succeeded, ForNothing;
    }

    /** Name every data set anew and remember where each name leads. */
    method Rebind(r: RunResult) returns (datasets: seq<seq<string>>)
      requires fieldDatasetBindings == map[]
      modifies this`fieldDatasetBindings
      ensures datasets == Published(id, r).datasets && fieldDatasetBindings == Bindings(id, r)
    {
      datasets := [];
      for d := 0 to |r.datasets|
        invariant |datasets| == d && forall e :: 0 <= e < d ==> datasets[e] == PublicNames(id, r.jobId, r.datasets[e])
        invariant fieldDatasetBindings == BindNames(id, r.jobId, AllNames(r.datasets[..d]))
      {
        NamesNext(r.datasets, d);
        var names := RebindDomain(r.jobId, r.datasets[d], AllNames(r.datasets[..d]));
        datasets := datasets + [names];
      }
      assert r.datasets[..|r.datasets|] == r.datasets;
    }

    method RebindDomain(jobId: string, solverNames: seq<string>, ghost done: seq<string>) returns (names: seq<string>)
      requires fieldDatasetBindings == BindNames(id, jobId, done)
      modifies this`fieldDatasetBindings
      ensures names == PublicNames(id, jobId, solverNames) &&
        fieldDatasetBindings == BindNames(id, jobId, done + solverNames)
    {
      names := [];
      assert done + [] == done;
      for k := 0 to |solverNames|
        invariant |names| == k && forall l :: 0 <= l < k ==> names[l] == PublicName(id, jobId, solverNames[l])
        invariant fieldDatasetBindings == BindNames(id, jobId, done + solverNames[..k])
      {
        var name := PublicName(id, jobId, solverNames[k]);
        fieldDatasetBindings := fieldDatasetBindings[name := solverNames[k]];
        names := names + [name];
        ghost var next := done + solverNames[..k + 1];
        assert next[..|next| - 1] == done + solverNames[..k];
      }
      assert solverNames[..|solverNames|] == solverNames;
    }

    /** The part of `cancel` that runs at once; `again` says that the rest follows
        when the solver has answered. A run that has ended stays as it is; any other
        can never succeed from now on, and its solver run is asked to stop. */
    method Cancel() returns (again: bool)
      requires Valid()
      modifies this
      ensures Valid() && history == old(history) + [CancelCalled]
      ensures !again ==> Terminal(status) && EndsAs(id, history, status)
      ensures status == old(status) || status.Cancelled?
      ensures result == old(result)
      ensures !old(Terminal(status)) ==> aborted && NeverSucceeds(id, history)
      ensures again <==> old(status) in {Queued, Running} && solverRunId.Some?
      ensures again ==> status == old(status) && solverRunId.value in cancelRequested
      ensures old(status) in {Queued, Running} && solverRunId.None? ==> status.Cancelled?
      ensures cancelsPending == old(cancelsPending) + if again then 1 else 0
    {
      Record(CancelCalled);
      if Terminal(status) {
        return false;
      }
      aborted := true;
      if solverRunId.Some? {
        cancelRequested, cancelsPending := cancelRequested + {solverRunId.value}, cancelsPending + 1;
        return true;
      }
      result, fieldDatasetBindings, status := None, map[], Cancelled;
      return false;
    }

    /** The rest of a cancel: the run is cancelled for good and empty, and its
        solver run was asked to stop. */
    method AfterCancel()
      requires Valid() && cancelsPending > 0
      modifies this
      ensures Valid() && history == old(history) + [CancelAnswered]
      ensures status.Cancelled? && EndsAs(id, history, Cancelled) && NeverSucceeds(id, history)
      ensures result.None? && fieldDatasetBindings == map[]
      ensures solverRunId.Some? && solverRunId.value in cancelRequested
    {
      Record(CancelAnswered);
      cancelsPending := cancelsPending - 1;
      result, fieldDatasetBindings, status := None, map[], Cancelled;
    }

    /** The part of a read up to the call of the solver: it asks exactly if the run
        succeeded and lists the name, and then the run's own solver run for the data
        set that was given this name. */
    method FieldDataset(name: string) returns (asked: Option<FieldQuery>)
      requires Valid()
      ensures asked.Some? <==> status.Succeeded? && result.Some? && Listed(result.value.datasets, name)
      ensures asked.Some? ==>
        && asked.value.domain < |result.value.datasets| && name in result.value.datasets[asked.value.domain]
        && solverRunId == Some(asked.value.solverRunId)
        && PublicName(id, asked.value.solverRunId, asked.value.solverName) == name
    {
      ReadsWhatIsListed(id, history, name);
      if result.None? {
        return None;
      }
      var domain := FindDomain(result.value.datasets, name, 0);
      if domain.None? || solverRunId.None? || status != Succeeded || name !in fieldDatasetBindings {
        return None;
      }
      return Some(FieldQuery(domain.value, solverRunId.value, fieldDatasetBindings[name]));
    }
  }
}
