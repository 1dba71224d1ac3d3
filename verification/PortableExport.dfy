/** The single-use export handle of a new completion: freshness, an already
    given consent, freshness again, a receipt, validation, and freshness once
    more. A cancel, the caller's signal or the time limit can fall into any await. */
module PortableExport {
  import opened Wrappers

  datatype HandleState = Fresh | Pending | Closed

  /** Digests of the frozen snapshot that consent and receipt are given for. */
  datatype Binding = Binding(payloadDigest: string, originDigest: string)

  /** The five calls of the owner's ports. */
  datatype Port = FreshBefore | Consent | FreshAfter | Receipt | FreshAtEnd

  datatype Milestone = Called(port: Port, binding: Binding) | Answered(port: Port, binding: Binding) | ResultValidated

  /** A port call first waits for its turn, then for the answer. */
  datatype Waiting =
    | Idle
    | ForTurn(port: Port)
    | ForAnswer(port: Port)
    | ForOriginDigest
    | ForPayloadDigest
    | ForValidation
    | Over

  datatype State = State(handle: HandleState, aborted: bool, waiting: Waiting, log: seq<Milestone>, returned: bool)

  const INITIAL := State(Fresh, false, Idle, [], false)

  datatype Event =
    | ExportCalled(signalAborted: bool)
    | TurnCame
    | PortAnswered(ok: bool)
    | DigestReady(ok: bool)
    | ValidationDone(ok: bool)
    | SignalAborted
    | CancelCalled

  /** What is fixed when the handle is made. */
  datatype Snapshot = Snapshot(binding: Binding, hasSource: bool)

  function Close(s: State): State {
    s.(handle := Closed, waiting := Over)
  }

  /** A call is not even scheduled once the signal is aborted. */
  function Schedule(s: State, port: Port): State {
    if s.aborted then Close(s) else s.(waiting := ForTurn(port))
  }

  function AfterAnswer(c: Snapshot, s: State, port: Port): State {
    var a := s.(log := s.log + [Answered(port, c.binding)]);
    match port
    case FreshBefore => if c.hasSource then a.(waiting := ForOriginDigest) else Close(a)
    case Consent => Schedule(a, FreshAfter)
    case FreshAfter => Schedule(a, Receipt)
    case Receipt => a.(waiting := ForValidation)
    case FreshAtEnd => Close(a.(returned := true))
  }

  function Step(c: Snapshot, s: State, e: Event): State {
    match e
    case ExportCalled(signalAborted) =>
      if !s.handle.Fresh? then s
      else Schedule(s.(handle := Pending, aborted := s.aborted || signalAborted), FreshBefore)
    case TurnCame =>
      if !s.waiting.ForTurn? then s
      else if s.aborted then Close(s)
      else s.(log := s.log + [Called(s.waiting.port, c.binding)], waiting := ForAnswer(s.waiting.port))
    case PortAnswered(ok) =>
      if !s.waiting.ForAnswer? then s
      else if s.aborted || !ok then Close(s)
      else AfterAnswer(c, s, s.waiting.port)
    case DigestReady(ok) =>
      if !s.waiting.ForOriginDigest? && !s.waiting.ForPayloadDigest? then s
      else if !ok then Close(s)
      else if s.waiting.ForOriginDigest? then s.(waiting := ForPayloadDigest)
      else Schedule(s, Consent)
    case ValidationDone(ok) =>
      if !s.waiting.ForValidation? then s
      else if !ok then Close(s)
      else Schedule(s.(log := s.log + [ResultValidated]), FreshAtEnd)
    case SignalAborted => if s.handle.Pending? then s.(aborted := true) else s
    case CancelCalled => s.(handle := Closed, aborted := true)
  }

  function Run(c: Snapshot, events: seq<Event>): State {
    if events == [] then INITIAL
    else Step(c, Run(c, events[..|events| - 1]), events[|events| - 1])
  }

  // ---------------------------------------------------------------- the protocol

  function Protocol(b: Binding): seq<Milestone> {
    [Called(FreshBefore, b), Answered(FreshBefore, b), Called(Consent, b), Answered(Consent, b),
     Called(FreshAfter, b), Answered(FreshAfter, b), Called(Receipt, b), Answered(Receipt, b),
     ResultValidated, Called(FreshAtEnd, b), Answered(FreshAtEnd, b)]
  }

  /** How many milestones come before the call of a port. */
  function Before(port: Port): nat {
    match port
    case FreshBefore => 0
    case Consent => 2
    case FreshAfter => 4
    case Receipt => 6
    case FreshAtEnd => 9
  }

  function Progress(w: Waiting): Option<nat> {
    match w
    case Idle => Some(0)
    case ForTurn(port) => Some(Before(port))
    case ForAnswer(port) => Some(Before(port) + 1)
    case ForOriginDigest => Some(2)
    case ForPayloadDigest => Some(2)
    case ForValidation => Some(8)
    case Over => None
  }

  ghost predicate Invariant(c: Snapshot, s: State) {
    && |s.log| <= 11 && s.log == Protocol(c.binding)[..|s.log|]
    && (Progress(s.waiting).Some? ==> |s.log| == Progress(s.waiting).value)
    && (s.returned <==> |s.log| == 11)
    && (s.handle.Fresh? ==> s.waiting.Idle? && !s.aborted)
    && (s.handle.Closed? && !s.waiting.Idle? && !s.waiting.Over? ==> s.aborted)
    && (s.handle.Pending? ==> !s.waiting.Idle? && !s.waiting.Over?)
    && (s.returned ==> s.waiting.Over?)
  }

  lemma OneFurther(b: Binding, log: seq<Milestone>, m: Milestone)
    requires |log| < 11 && log == Protocol(b)[..|log|] && m == Protocol(b)[|log|]
    ensures log + [m] == Protocol(b)[..|log| + 1]
  {
  }

  lemma AnswerKeeps(c: Snapshot, s: State)
    requires Invariant(c, s) && s.waiting.ForAnswer? && !s.aborted
    ensures Invariant(c, AfterAnswer(c, s, s.waiting.port))
  {
  }

  lemma StepKeepsInvariant(c: Snapshot, s: State, e: Event)
    requires Invariant(c, s)
    ensures Invariant(c, Step(c, s, e))
  {
    match e
    case TurnCame =>
      if s.waiting.ForTurn? {
        OneFurther(c.binding, s.log, Called(s.waiting.port, c.binding));
      }
    case PortAnswered(ok) =>
      if s.waiting.ForAnswer? && !s.aborted {
        AnswerKeeps(c, s);
      }
    case ValidationDone(ok) =>
      if s.waiting.ForValidation? {
        OneFurther(c.binding, s.log, ResultValidated);
      }
    case _ =>
  }

  lemma {:induction false} Always(c: Snapshot, events: seq<Event>)
    ensures Invariant(c, Run(c, events))
  {
    if events != [] {
      Always(c, events[..|events| - 1]);
      StepKeepsInvariant(c, Run(c, events[..|events| - 1]), events[|events| - 1]);
    }
  }

  // ---------------------------------------------------------------- what follows for every history

  /** Consent is asked for at most once, and so is a receipt; a receipt only
      after the consent was given and freshness held again; both for the digests
      of the snapshot. */
  lemma OnceEachInOrder(c: Snapshot, events: seq<Event>, i: nat, j: nat)
    requires i < j < |Run(c, events).log|
    ensures var log := Run(c, events).log;
      && (log[i].Called? && log[j].Called? ==> log[i].port != log[j].port)
      && (log[j].Called? && log[j].port.Receipt? ==>
            j == 6 && log[2] == Called(Consent, c.binding) && log[3] == Answered(Consent, c.binding) &&
            log[5] == Answered(FreshAfter, c.binding) && log[j].binding == c.binding)
  {
    Always(c, events);
  }

  /** A result is returned exactly when all eleven milestones are behind, so
      freshness held before consent, after it and after validation. */
  lemma ReturnedExactly(c: Snapshot, events: seq<Event>)
    ensures Run(c, events).returned <==> Run(c, events).log == Protocol(c.binding)
  {
    Always(c, events);
  }

  /** A result was returned by one step, the answer to the last freshness call,
      and that step found neither an abort nor a cancel. */
  lemma {:induction false} ReturnedUncancelled(c: Snapshot, events: seq<Event>) returns (k: nat)
    requires Run(c, events).returned
    ensures k < |events| && events[k] == PortAnswered(true) && !Run(c, events[..k]).returned
    ensures !Run(c, events[..k]).aborted && Run(c, events[..k]).handle.Pending?
    ensures Run(c, events[..k]).waiting == ForAnswer(FreshAtEnd)
  {
    k := |events| - 1;
    Always(c, events[..k]);
    if Run(c, events[..k]).returned {
      var init := events[..k];
      k := ReturnedUncancelled(c, init);
      assert events[k] == init[k] && events[..k] == init[..k];
    }
  }

  predicate IsCall(m: Milestone) {
    m.Called?
  }

  /** After a cancel no port is called any more, and nothing is returned. */
  lemma NothingAfterAbort(c: Snapshot, s: State, e: Event)
    requires Invariant(c, s) && s.aborted
    ensures Step(c, s, e).aborted && Step(c, s, e).returned == s.returned
    ensures var log := Step(c, s, e).log;
      s.log <= log && forall k :: |s.log| <= k < |log| ==> !IsCall(log[k])
  {
  }

  lemma {:induction false} NothingEverAfterCancel(c: Snapshot, before: seq<Event>, after: seq<Event>)
    requires Run(c, before).aborted
    ensures var s, t := Run(c, before), Run(c, before + after);
      && t.aborted && t.returned == s.returned && s.log <= t.log
      && forall k :: |s.log| <= k < |t.log| ==> !IsCall(t.log[k])
  {
    if after == [] {
      assert before + after == before;
    } else {
      var init := before + after[..|after| - 1];
      NothingEverAfterCancel(c, before, after[..|after| - 1]);
      assert (before + after)[..|before + after| - 1] == init;
      Always(c, init);
      NothingAfterAbort(c, Run(c, init), after[|after| - 1]);
    }
  }

  /** The handle serves one export: whatever came first, a second one does nothing. */
  lemma {:induction false} SingleUse(c: Snapshot, before: seq<Event>, after: seq<Event>, signalAborted: bool)
    requires !Run(c, before).handle.Fresh?
    ensures !Run(c, before + after).handle.Fresh?
    ensures Run(c, before + after + [ExportCalled(signalAborted)]) == Run(c, before + after)
  {
    assert (before + after + [ExportCalled(signalAborted)])[..|before + after|] == before + after;
    if after == [] {
      assert before + after == before;
    } else {
      SingleUse(c, before, after[..|after| - 1], signalAborted);
      assert (before + after)[..|before + after| - 1] == before + after[..|after| - 1];
    }
  }

  // ---------------------------------------------------------------- what the calls come to

  lemma RunOne(c: Snapshot, history: seq<Event>, e: Event)
    ensures Run(c, history + [e]) == Step(c, Run(c, history), e)
  {
    assert (history + [e])[..|history|] == history;
  }

  lemma {:induction false} OverStays(c: Snapshot, before: seq<Event>, after: seq<Event>)
    requires Run(c, before).waiting.Over?
    ensures var s, t := Run(c, before), Run(c, before + after);
      t.waiting.Over? && t.log == s.log && t.returned == s.returned && (!s.handle.Fresh? ==> !t.handle.Fresh?)
  {
    Always(c, before);
    if after == [] {
      assert before + after == before;
    } else {
      OverStays(c, before, after[..|after| - 1]);
      assert (before + after)[..|before + after| - 1] == before + after[..|after| - 1];
    }
  }

  /** Whatever follows, no port is called any more and nothing more is returned. */
  ghost predicate Silent(c: Snapshot, history: seq<Event>) {
    forall after :: SilentThrough(c, history, after)
  }

  ghost predicate SilentThrough(c: Snapshot, history: seq<Event>, after: seq<Event>) {
    var s, t := Run(c, history), Run(c, history + after);
    t.returned == s.returned && s.log <= t.log && forall k :: |s.log| <= k < |t.log| ==> !IsCall(t.log[k])
  }

  lemma SilentOnceOver(c: Snapshot, history: seq<Event>)
    ensures Run(c, history).waiting.Over? || Run(c, history).aborted ==> Silent(c, history)
  {
    if Run(c, history).waiting.Over? {
      forall after ensures SilentThrough(c, history, after) {
        OverStays(c, history, after);
      }
    } else if Run(c, history).aborted {
      forall after ensures SilentThrough(c, history, after) {
        NothingEverAfterCancel(c, history, after);
      }
    }
  }

  // ---------------------------------------------------------------- an export that nobody disturbs

  /** A port that is called and answers well. */
  const SERVED: seq<Event> := [TurnCame, PortAnswered(true)]

  lemma PortServes(c: Snapshot, before: seq<Event>, port: Port)
    requires var s := Run(c, before);
      s.waiting == ForTurn(port) && !s.aborted && s.handle.Pending? && (port.FreshBefore? ==> c.hasSource)
    ensures var t := Run(c, before + SERVED);
      && t.returned == (port.FreshAtEnd? || Run(c, before).returned)
      && (!port.FreshAtEnd? ==> !t.aborted && t.handle.Pending?)
      && (port.FreshBefore? ==> t.waiting.ForOriginDigest?) && (port.Consent? ==> t.waiting == ForTurn(FreshAfter))
      && (port.FreshAfter? ==> t.waiting == ForTurn(Receipt)) && (port.Receipt? ==> t.waiting.ForValidation?)
  {
    RunOne(c, before, TurnCame);
    RunOne(c, before + [TurnCame], PortAnswered(true));
    assert before + [TurnCame] + [PortAnswered(true)] == before + SERVED;
  }

  function UpToConsent(): seq<Event> {
    [ExportCalled(false)] + SERVED + [DigestReady(true)] + [DigestReady(true)]
  }

  lemma Begins(c: Snapshot)
    ensures var s := Run(c, [ExportCalled(false)]); s.waiting == ForTurn(FreshBefore) && !s.aborted && s.handle.Pending?
  {
    RunOne(c, [], ExportCalled(false));
    assert [] + [ExportCalled(false)] == [ExportCalled(false)];
  }

  lemma DigestsFollow(c: Snapshot, before: seq<Event>)
    requires var s := Run(c, before); s.waiting.ForOriginDigest? && !s.aborted && s.handle.Pending?
    ensures var s := Run(c, before + [DigestReady(true)] + [DigestReady(true)]);
      s.waiting == ForTurn(Consent) && !s.aborted && s.handle.Pending?
  {
    RunOne(c, before, DigestReady(true));
    RunOne(c, before + [DigestReady(true)], DigestReady(true));
  }

  lemma ReachesConsent(c: Snapshot)
    requires c.hasSource
    ensures var s := Run(c, UpToConsent()); s.waiting == ForTurn(Consent) && !s.aborted && s.handle.Pending?
  {
    Begins(c);
    PortServes(c, [ExportCalled(false)], FreshBefore);
    DigestsFollow(c, [ExportCalled(false)] + SERVED);
  }

  /** An export whose ports all answer well returns a result. */
  lemma UndisturbedExport(c: Snapshot)
    requires c.hasSource
    ensures Run(c, UpToConsent() + SERVED + SERVED + SERVED + [ValidationDone(true)] + SERVED).returned
  {
    var begun := UpToConsent();
    ReachesConsent(c);
    PortServes(c, begun, Consent);
    PortServes(c, begun + SERVED, FreshAfter);
    PortServes(c, begun + SERVED + SERVED, Receipt);
    RunOne(c, begun + SERVED + SERVED + SERVED, ValidationDone(true));
    PortServes(c, begun + SERVED + SERVED + SERVED + [ValidationDone(true)], FreshAtEnd);
  }

  // ---------------------------------------------------------------- the handle as it is kept

  /** `history` is what has happened to the handle so far. */
  class Exporter {
    const snapshot: Snapshot
    var state: HandleState
    var aborted: bool
    ghost var waiting: Waiting
    ghost var log: seq<Milestone>
    ghost var returned: bool
    ghost var history: seq<Event>

    ghost function Now(): State
      reads this
    {
      State(state, aborted, waiting, log, returned)
    }

    ghost predicate Valid()
      reads this
    {
      Now() == Run(snapshot, history)
    }

    /** This much of the protocol is behind the handle, and nothing else. */
    ghost predicate HasDone(milestones: nat)
      requires milestones <= 11
      reads this
    {
      log == Protocol(snapshot.binding)[..milestones]
    }

    /** The export is over: no port is called any more and nothing is returned. */
    ghost predicate HasFailed()
      reads this
    {
      state.Closed? && waiting.Over? && !returned && Silent(snapshot, history)
    }

    constructor (snapshot: Snapshot)
      ensures this.snapshot == snapshot && Valid() && history == []
      ensures state.Fresh? && !aborted && !returned && waiting.Idle? && HasDone(0)
    {
      this.snapshot := snapshot;
      state, aborted, waiting, log, returned := Fresh, false, Idle, [], false;
      history := [];
    }

    /** Every event goes on record before it is handled. */
    ghost method Record(e: Event)
      requires Valid()
      modifies this`history
      ensures history == old(history) + [e] && Run(snapshot, history) == Step(snapshot, Now(), e)
      ensures Invariant(snapshot, Now()) && Invariant(snapshot, Run(snapshot, history))
      ensures Run(snapshot, history).waiting.Over? || Run(snapshot, history).aborted ==> Silent(snapshot, history)
    {
      Always(snapshot, history);
      RunOne(snapshot, history, e);
      history := history + [e];
      Always(snapshot, history);
      SilentOnceOver(snapshot, history);
    }

    method Finish()
      modifies this
      ensures Now() == Close(old(Now())) && history == old(history)
    {
      state, waiting := Closed, Over;
    }

    method ScheduleCall(port: Port)
      modifies this
      ensures Now() == Schedule(old(Now()), port) && history == old(history)
    {
      if aborted {
        Finish();
      } else {
        waiting := ForTurn(port);
      }
    }

    /** The start of `export`: once per handle, and not after a cancel; a refused
        call changes nothing. */
    method Export(signalAborted: bool) returns (accepted: bool)
      requires Valid()
      modifies this
      ensures Valid() && history == old(history) + [ExportCalled(signalAborted)] && !state.Fresh?
      ensures accepted == old(state).Fresh?
      ensures !accepted ==> Now() == old(Now())
      ensures accepted ==> if signalAborted then HasFailed() else waiting == ForTurn(FreshBefore)
      ensures accepted ==> HasDone(0)
    {
      Record(ExportCalled(signalAborted));
      if state != Fresh {
        return false;
      }
      state := Pending;
      if signalAborted {
        aborted := true;
      }
      ScheduleCall(FreshBefore);
      return true;
    }

    /** The turn of a scheduled call: the port is called exactly if nothing was
        aborted meanwhile, and then for the digests of the snapshot. */
    method CallPort(port: Port) returns (called: bool)
      requires Valid() && waiting == ForTurn(port)
      modifies this
      ensures Valid() && history == old(history) + [TurnCame]
      ensures called == !aborted && aborted == old(aborted)
      ensures if called then HasDone(Before(port) + 1) && waiting == ForAnswer(port)
        else HasFailed() && HasDone(Before(port))
    {
      Record(TurnCame);
      if aborted {
        Finish();
        return false;
      }
      log, waiting := log + [Called(port, snapshot.binding)], ForAnswer(port);
      return true;
    }

    /** A port has answered. Only the last freshness call lets a result be returned;
        a refusal, an abort or a missing source ends the export. */
    method AfterPort(port: Port, ok: bool)
      requires Valid() && waiting == ForAnswer(port)
      modifies this
      ensures Valid() && history == old(history) + [PortAnswered(ok)]
      ensures returned <==> port.FreshAtEnd? && ok && !old(aborted)
      ensures ok && !old(aborted) ==> HasDone(Before(port) + 2)
      ensures !ok || old(aborted) ==> HasFailed()
      ensures port.FreshBefore? && !snapshot.hasSource ==> HasFailed()
      ensures ok && !old(aborted) && port.FreshBefore? && snapshot.hasSource ==> waiting.ForOriginDigest?
      ensures returned ==> state.Closed? && waiting.Over?
      ensures ok && !old(aborted) && port.Consent? ==> waiting == ForTurn(FreshAfter)
      ensures ok && !old(aborted) && port.FreshAfter? ==> waiting == ForTurn(Receipt)
      ensures ok && !old(aborted) && port.Receipt? ==> waiting.ForValidation?
    {
      Record(PortAnswered(ok));
      if aborted || !ok {
        Finish();
        return;
      }
      log := log + [Answered(port, snapshot.binding)];
      match port {
        case FreshBefore =>
          if snapshot.hasSource {
            waiting := ForOriginDigest;
          } else {
            Finish();
          }
        case Consent => ScheduleCall(FreshAfter);
        case FreshAfter => ScheduleCall(Receipt);
        case Receipt => waiting := ForValidation;
        case FreshAtEnd =>
          returned := true;
          Finish();
      }
    }

    method AfterOriginDigest(ok: bool)
      requires Valid() && waiting.ForOriginDigest?
      modifies this
      ensures Valid() && history == old(history) + [DigestReady(ok)] && HasDone(2)
      ensures if ok then waiting.ForPayloadDigest? else HasFailed()
    {
      Record(DigestReady(ok));
      if !ok {
        Finish();
        return;
      }
      waiting := ForPayloadDigest;
    }

    /** Both digests lead on to the consent, unless the export was aborted. */
    method AfterPayloadDigest(ok: bool)
      requires Valid() && waiting.ForPayloadDigest?
      modifies this
      ensures Valid() && history == old(history) + [DigestReady(ok)] && HasDone(2)
      ensures if ok && !aborted then waiting == ForTurn(Consent) else HasFailed()
    {
      Record(DigestReady(ok));
      if !ok {
        Finish();
        return;
      }
      ScheduleCall(Consent);
    }

    /** A validated result still has to be fresh. */
    method AfterValidation(ok: bool)
      requires Valid() && waiting.ForValidation?
      modifies this
      ensures Valid() && history == old(history) + [ValidationDone(ok)] && !returned
      ensures ok ==> HasDone(9)
      ensures if ok && !aborted then waiting == ForTurn(FreshAtEnd) else HasFailed()
    {
      Record(ValidationDone(ok));
      if !ok {
        Finish();
        return;
      }
      log := log + [ResultValidated];
      ScheduleCall(FreshAtEnd);
    }

    /** The caller's signal or the time limit, heard while the export runs. */
    method Signal()
      requires Valid() && state.Pending?
      modifies this
      ensures Valid() && history == old(history) + [SignalAborted] && aborted
      ensures !returned && Silent(snapshot, history)
    {
      Record(SignalAborted);
      aborted := true;
    }

    /** From now on no port is called, nothing is returned, and no export begins. */
    method Cancel()
      requires Valid()
      modifies this
      ensures Valid() && history == old(history) + [CancelCalled] && aborted && state.Closed?
      ensures returned == old(returned) && log == old(log) && Silent(snapshot, history)
    {
      Record(CancelCalled);
      state, aborted := Closed, true;
    }
  }
}
