/** One native stage of the fracture pilot, run in a directory of its own, and
    the ending it always gets: terminate, keep what it wrote, clean up, and keep
    on record whether that worked. */
module OwnedStage {
  import opened Wrappers

  /** A call of something outside: its answer, or that it failed. */
  datatype Call<T> = Returned(value: T) | Threw

  datatype Artifact = Absent | Unsafe | Bytes(content: seq<int>)

  /** How the outside answers during the ending of a stage. */
  datatype Ending = Ending(terminate: Call<bool>, artifact: Artifact, artifactKept: bool, clean: Call<bool>,
    cleanupKept: bool)

  datatype Failure =
    TerminateThrew | ArtifactUnsafe | ArtifactNotKept | CleanThrew | CleanupNotKept | CleanupUnconfirmed

  /** What was asked of the outside, in order; the record of the clean-up says
      whether it passed. */
  datatype Asked = AskTerminate | AskKeepArtifact(content: seq<int>) | AskClean | AskKeepCleanup(passed: bool)

  /** A failed ending says whether the clean-up was confirmed all the same. */
  datatype EndResult = Ended | EndFailed(failures: seq<Failure>, cleanupConfirmed: bool)

  predicate Confirmed(e: Ending) {
    e.terminate == Returned(true) && e.clean == Returned(true)
  }

  /** Terminated, cleaned up, and both on record with what the stage wrote. */
  predicate EndsWell(e: Ending) {
    Confirmed(e) && !e.artifact.Unsafe? && e.artifactKept && e.cleanupKept
  }

  function CallFailure(c: Call<bool>, failure: Failure): seq<Failure> {
    if c.Threw? then [failure] else []
  }

  function ArtifactFailure(e: Ending): seq<Failure> {
    if e.artifact.Unsafe? then [ArtifactUnsafe] else if !e.artifactKept then [ArtifactNotKept] else []
  }

  function RecordFailure(e: Ending): seq<Failure> {
    (if !e.cleanupKept then [CleanupNotKept] else []) + (if !Confirmed(e) then [CleanupUnconfirmed] else [])
  }

  function FailuresOf(e: Ending): seq<Failure> {
    CallFailure(e.terminate, TerminateThrew) + ArtifactFailure(e) + CallFailure(e.clean, CleanThrew) + RecordFailure(e)
  }

  function AskedAboutArtifact(e: Ending): seq<Asked> {
    match e.artifact
    case Unsafe => []
    case Absent => [AskKeepArtifact([])]
    case Bytes(content) => [AskKeepArtifact(content)]
  }

  function AskedOf(e: Ending): seq<Asked> {
    [AskTerminate] + AskedAboutArtifact(e) + [AskClean] + [AskKeepCleanup(Confirmed(e))]
  }

  /** Make a call that may throw: whether it answered yes, and the failures so far. */
  method Try(c: Call<bool>, failure: Failure, before: seq<Failure>) returns (yes: bool, failures: seq<Failure>)
    ensures yes == (c == Returned(true)) && failures == before + CallFailure(c, failure)
  {
    match c {
      case Returned(value) => return value, before;
      case Threw => return false, before + [failure];
    }
  }

  method TryKeepArtifact(e: Ending, before: seq<Failure>) returns (failures: seq<Failure>, asked: seq<Asked>)
    ensures failures == before + ArtifactFailure(e) && asked == AskedAboutArtifact(e)
  {
    if e.artifact.Unsafe? {
      return before + [ArtifactUnsafe], [];
    }
    asked := [AskKeepArtifact(if e.artifact.Bytes? then e.artifact.content else [])];
    failures := if e.artifactKept then before else before + [ArtifactNotKept];
  }

  /** No failure of one step keeps a later one from being tried; each is collected,
      and there is none exactly if all went well. */
  method FinishStage(e: Ending) returns (r: EndResult, asked: seq<Asked>)
    ensures r.Ended? <==> EndsWell(e)
    ensures r.EndFailed? ==> r.cleanupConfirmed == Confirmed(e)
    ensures r == if FailuresOf(e) == [] then Ended else EndFailed(FailuresOf(e), Confirmed(e))
    ensures asked == AskedOf(e)
  {
    var failures: seq<Failure>, keeping: seq<Asked>;
    var terminated, cleaned;
    terminated, failures := Try(e.terminate, TerminateThrew, []);
    failures, keeping := TryKeepArtifact(e, failures);
    cleaned, failures := Try(e.clean, CleanThrew, failures);
    asked := [AskTerminate] + keeping + [AskClean] + [AskKeepCleanup(terminated && cleaned)];
    ghost var before := failures;
    if !e.cleanupKept {
      failures := failures + [CleanupNotKept];
    }
    if !terminated || !cleaned {
      failures := failures + [CleanupUnconfirmed];
    }
    assert failures == before + RecordFailure(e);
    r := if failures == [] then Ended else EndFailed(failures, terminated && cleaned);
  }

  function RankOf(f: Failure): nat {
    match f
    case TerminateThrew => 0
    case ArtifactUnsafe => 1
    case ArtifactNotKept => 2
    case CleanThrew => 3
    case CleanupNotKept => 4
    case CleanupUnconfirmed => 5
  }

  /** The failures between two ranks, in order. */
  ghost predicate InOrder(failures: seq<Failure>, low: nat, high: nat) {
    && (forall i :: 0 <= i < |failures| ==> low <= RankOf(failures[i]) < high)
    && (forall i, j :: 0 <= i < j < |failures| ==> RankOf(failures[i]) < RankOf(failures[j]))
  }

  lemma InOrderTogether(a: seq<Failure>, b: seq<Failure>, low: nat, middle: nat, high: nat)
    requires InOrder(a, low, middle) && InOrder(b, middle, high) && low <= middle <= high
    ensures InOrder(a + b, low, high) && forall f :: f in a + b <==> f in a || f in b
  {
  }

  /** There is at most this failure, exactly if it happened. */
  ghost predicate Reports(failures: seq<Failure>, f: Failure, happened: bool) {
    failures == if happened then [f] else []
  }

  lemma ReportedInOrder(failures: seq<Failure>, f: Failure, happened: bool)
    requires Reports(failures, f, happened)
    ensures InOrder(failures, RankOf(f), RankOf(f) + 1)
    ensures forall x :: x in failures <==> x == f && happened
  {
  }

  lemma ArtifactInOrder(e: Ending)
    ensures InOrder(ArtifactFailure(e), 1, 3)
    ensures ArtifactUnsafe in ArtifactFailure(e) <==> e.artifact.Unsafe?
    ensures ArtifactNotKept in ArtifactFailure(e) <==> !e.artifact.Unsafe? && !e.artifactKept
  {
  }

  lemma RecordInOrder(e: Ending)
    ensures InOrder(RecordFailure(e), 4, 6)
    ensures CleanupNotKept in RecordFailure(e) <==> !e.cleanupKept
    ensures CleanupUnconfirmed in RecordFailure(e) <==>
      !(e.terminate == Returned(true) && e.clean == Returned(true))
  {
    var kept, confirmed := if !e.cleanupKept then [CleanupNotKept] else [],
      if !Confirmed(e) then [CleanupUnconfirmed] else [];
    ReportedInOrder(kept, CleanupNotKept, !e.cleanupKept);
    ReportedInOrder(confirmed, CleanupUnconfirmed, !Confirmed(e));
    InOrderTogether(kept, confirmed, 4, 5, 6);
  }

  lemma Collected(a: seq<Failure>, b: seq<Failure>, c: seq<Failure>, d: seq<Failure>)
    requires InOrder(a, 0, 1) && InOrder(b, 1, 3) && InOrder(c, 3, 4) && InOrder(d, 4, 6)
    ensures InOrder(a + b + c + d, 0, 6)
    ensures forall f :: f in a + b + c + d <==>
      f in if RankOf(f) < 1 then a else if RankOf(f) < 3 then b else if RankOf(f) < 4 then c else d
  {
    InOrderTogether(a, b, 0, 1, 3);
    InOrderTogether(a + b, c, 0, 3, 4);
    InOrderTogether(a + b + c, d, 0, 4, 6);
  }

  /** Every failure is collected exactly if it happened, once, in the order of the steps. */
  lemma FailuresExactly(e: Ending)
    ensures var failures := FailuresOf(e);
      && (TerminateThrew in failures <==> e.terminate.Threw?)
      && (ArtifactUnsafe in failures <==> e.artifact.Unsafe?)
      && (ArtifactNotKept in failures <==> !e.artifact.Unsafe? && !e.artifactKept)
      && (CleanThrew in failures <==> e.clean.Threw?)
      && (CleanupNotKept in failures <==> !e.cleanupKept)
      && (CleanupUnconfirmed in failures <==> !(e.terminate == Returned(true) && e.clean == Returned(true)))
      && InOrder(failures, 0, 6)
  {
    var a, b, c, d := CallFailure(e.terminate, TerminateThrew), ArtifactFailure(e), CallFailure(e.clean, CleanThrew),
      RecordFailure(e);
    ReportedInOrder(a, TerminateThrew, e.terminate.Threw?);
    ArtifactInOrder(e);
    ReportedInOrder(c, CleanThrew, e.clean.Threw?);
    RecordInOrder(e);
    Collected(a, b, c, d);
  }

  /** Whatever fails, the process is terminated first, then what it wrote is kept unless it
      is unsafe, then the directory is cleaned up and the outcome put on record. */
  lemma AskedExactly(e: Ending)
    ensures var asked := AskedOf(e);
      && |asked| == (if e.artifact.Unsafe? then 3 else 4) && asked[0] == AskTerminate
      && (e.artifact.Absent? ==> asked[1] == AskKeepArtifact([]))
      && (e.artifact.Bytes? ==> asked[1] == AskKeepArtifact(e.artifact.content))
      && asked[|asked| - 2] == AskClean
      && asked[|asked| - 1] == AskKeepCleanup(e.terminate == Returned(true) && e.clean == Returned(true))
  {
  }

  // ---------------------------------------------------------------- reading what the stage wrote

  /** How much of a file is kept: all of it up to a limit, else its beginning. */
  function KeptLength(size: nat, limit: nat, sample: nat): nat {
    var wanted := if size > limit then sample else limit;
    if size < wanted then size else wanted
  }

  /** Chunks of any size, as they come; `chunk` says how much is to be had at each
      offset, nothing meaning the end of the file. */
  method ReadKept(file: seq<int>, limit: nat, sample: nat, chunk: nat -> nat) returns (artifact: seq<int>)
    ensures artifact <= file[..KeptLength(|file|, limit, sample)]
    ensures (forall offset :: chunk(offset) > 0) ==> artifact == file[..KeptLength(|file|, limit, sample)]
    ensures (forall offset :: chunk(offset) > 0) && |file| <= limit ==> artifact == file
    ensures |file| > limit ==> |artifact| <= sample
    ensures (forall offset :: chunk(offset) > 0) && |file| > limit && |file| >= sample ==> artifact == file[..sample]
  {
    var length := KeptLength(|file|, limit, sample);
    var offset := 0;
    artifact := [];
    while offset < length
      invariant offset <= length && artifact == file[..offset]
    {
      var available := chunk(offset);
      if available == 0 {
        break;
      }
      var read := if available < length - offset then available else length - offset;
      artifact := artifact + file[offset..offset + read];
      offset := offset + read;
    }
  }

  // ---------------------------------------------------------------- the stage

  /** How the outside behaves during a stage; `exit` is missing if the process
      could not be started. */
  datatype World = World(
    abortedAtCall: bool, inputKept: bool, directoryMade: bool, inputsWritten: bool, abortedBeforeLaunch: bool,
    exit: Option<int>, exceeded: bool, abortedAtExit: bool, output: Option<string>, ending: Ending)

  datatype StageResult = StageReturned(output: string) | StageThrew(cleanupConfirmed: Option<bool>)

  /** The process is started. */
  predicate Launches(w: World) {
    !w.abortedAtCall && w.inputKept && w.directoryMade && w.inputsWritten && !w.abortedBeforeLaunch
  }

  /** What the body of the stage would return by itself. */
  function BodyOutput(w: World): Option<string> {
    if Launches(w) && w.exit == Some(0) && !w.exceeded && !w.abortedAtExit then w.output else None
  }

  /** Where nothing was started there is nothing to terminate. */
  function EndingOf(w: World): Ending {
    if Launches(w) then w.ending else w.ending.(terminate := Returned(true))
  }

  method StageBody(w: World) returns (output: Option<string>, launched: bool)
    requires !w.abortedAtCall && w.inputKept && w.directoryMade
    ensures output == BodyOutput(w) && launched == Launches(w)
  {
    launched := false;
    if !w.inputsWritten || w.abortedBeforeLaunch {
      return None, launched;
    }
    launched := true;
    if w.exit.None? || w.exceeded || w.abortedAtExit || w.exit.value != 0 {
      return None, launched;
    }
    return w.output, launched;
  }

  predicate Enters(w: World) {
    !w.abortedAtCall && w.inputKept && w.directoryMade
  }

  /** Only a failed ending says anything about the clean-up. */
  function ConfirmationOf(w: World): Option<bool> {
    if Enters(w) && FailuresOf(EndingOf(w)) != [] then Some(Confirmed(EndingOf(w))) else None
  }

  /** Output is returned only by a process that was started before any abort,
      exited with zero within its limits, and was confirmed terminated, cleaned up
      and put on record. */
  predicate Returns(w: World) {
    && Launches(w) && w.exit == Some(0) && !w.exceeded && !w.abortedAtExit && w.output.Some?
    && EndsWell(w.ending)
  }

  function StageResultOf(w: World): StageResult {
    if Returns(w) then StageReturned(w.output.value) else StageThrew(ConfirmationOf(w))
  }

  /** Output is returned exactly if nothing was aborted at any of the three moments, all the
      preparations succeeded, the process exited with zero within its limits, and the
      ending had no failure to collect. */
  lemma ReturnedExactly(w: World, output: string)
    ensures StageResultOf(w) == StageReturned(output) <==>
      && !w.abortedAtCall && !w.abortedBeforeLaunch && !w.abortedAtExit
      && w.inputKept && w.directoryMade && w.inputsWritten
      && w.exit == Some(0) && !w.exceeded && w.output == Some(output) && FailuresOf(w.ending) == []
  {
  }

  /** A stage that throws says something of the clean-up exactly if it began and its ending
      failed, and says that it passed exactly if the process, if there was one, was
      terminated and the directory cleaned up. */
  lemma ThrownExactly(w: World)
    requires StageResultOf(w).StageThrew?
    ensures var said, began := StageResultOf(w).cleanupConfirmed, !w.abortedAtCall && w.inputKept && w.directoryMade;
      var launched := began && w.inputsWritten && !w.abortedBeforeLaunch;
      var cleaned := (!launched || w.ending.terminate == Returned(true)) && w.ending.clean == Returned(true);
      && (said == Some(true) <==>
            began && cleaned && (w.ending.artifact.Unsafe? || !w.ending.artifactKept || !w.ending.cleanupKept))
      && (said == Some(false) <==> began && !cleaned)
  {
    FailuresExactly(EndingOf(w));
    if FailuresOf(EndingOf(w)) != [] {
      assert FailuresOf(EndingOf(w))[0] in FailuresOf(EndingOf(w));
    }
  }

  /** An error of the ending takes the place of whatever the body returned or threw. */
  method RunOwnedStage(w: World) returns (result: StageResult, asked: seq<Asked>)
    ensures result == StageResultOf(w)
    ensures asked == if Enters(w) then AskedOf(EndingOf(w)) else []
  {
    if w.abortedAtCall || !w.inputKept || !w.directoryMade {
      return StageThrew(None), [];
    }
    var output, launched := StageBody(w);
    var ended: EndResult;
    ended, asked := FinishStage(if launched then w.ending else w.ending.(terminate := Returned(true)));
    match ended {
      case EndFailed(_, cleanupConfirmed) => return StageThrew(Some(cleanupConfirmed)), asked;
      case Ended =>
        match output {
          case None => return StageThrew(None), asked;
          case Some(text) => return StageReturned(text), asked;
        }
    }
  }
}
