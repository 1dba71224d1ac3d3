/** The early-stopping size of a directory tree, and the monitor that asks
    whether a working directory has outgrown its budget. */
module DirectoryWalk {
  import opened Wrappers

  /** Anything that is neither a directory nor a file adds nothing. */
  datatype Entry = Directory(entries: seq<Entry>) | File(size: nat) | Other

  function EntrySize(entry: Entry): nat
    decreases entry
  {
    match entry
    case Directory(entries) => TotalSize(entries)
    case File(size) => size
    case Other => 0
  }

  /** The sizes of all files below. */
  function TotalSize(entries: seq<Entry>): nat
    decreases entries
  {
    if entries == [] then 0 else EntrySize(entries[0]) + TotalSize(entries[1..])
  }

  function Max(a: nat, b: nat): nat {
    if a < b then b else a
  }

  function LargestIn(entry: Entry): nat
    decreases entry
  {
    match entry
    case Directory(entries) => Largest(entries)
    case File(size) => size
    case Other => 0
  }

  /** The size of the largest file below. */
  function Largest(entries: seq<Entry>): nat
    decreases entries
  {
    if entries == [] then 0 else Max(LargestIn(entries[0]), Largest(entries[1..]))
  }

  /** The sizes of the files of a tree, in the order in which they are met. */
  function FileSizes(entries: seq<Entry>): seq<nat>
    decreases entries
  {
    if entries == [] then []
    else
      match entries[0]
      case Directory(below) => FileSizes(below) + FileSizes(entries[1..])
      case File(size) => [size] + FileSizes(entries[1..])
      case Other => FileSizes(entries[1..])
  }

  function Sum(sizes: seq<nat>): nat {
    if sizes == [] then 0 else sizes[0] + Sum(sizes[1..])
  }

  lemma {:induction false} SumOfTwo(a: seq<nat>, b: seq<nat>)
    ensures Sum(a + b) == Sum(a) + Sum(b)
  {
    if a == [] {
      assert a + b == b;
    } else {
      assert (a + b)[1..] == a[1..] + b;
      SumOfTwo(a[1..], b);
    }
  }

  /** The size of a tree is the sum of the sizes of its files, at whatever depth, and
      no file is larger than the largest. */
  lemma {:induction false} SizeOfFiles(entries: seq<Entry>)
    ensures TotalSize(entries) == Sum(FileSizes(entries))
    ensures forall k :: 0 <= k < |FileSizes(entries)| ==> FileSizes(entries)[k] <= Largest(entries)
    ensures Largest(entries) > 0 ==> Largest(entries) in FileSizes(entries)
    decreases entries
  {
    if entries != [] {
      SizeOfFiles(entries[1..]);
      if entries[0].Directory? {
        SizeOfFiles(entries[0].entries);
        SumOfTwo(FileSizes(entries[0].entries), FileSizes(entries[1..]));
      }
    }
  }

  /** Below the budget the walk is exact; otherwise it stops at or past the
      budget, by less than one file. */
  ghost predicate WalkResult(total: nat, bytes: nat, budget: nat, largest: nat) {
    && bytes <= total
    && (bytes < budget ==> bytes == total)
    && (budget > 0 ==> bytes < budget + largest)
  }

  method DirectorySizeBytes(entries: seq<Entry>, stopAfterBytes: nat) returns (total: nat)
    ensures WalkResult(TotalSize(entries), total, stopAfterBytes, Largest(entries))
    decreases entries
  {
    total := 0;
    for i := 0 to |entries|
      invariant total + TotalSize(entries[i..]) == TotalSize(entries)
      invariant Largest(entries[i..]) <= Largest(entries)
      invariant i > 0 ==> total < stopAfterBytes
    {
      assert entries[i..][0] == entries[i] && entries[i..][1..] == entries[i + 1..];
      match entries[i] {
        case Directory(below) =>
          var bytes := DirectorySizeBytes(below, if stopAfterBytes > total then stopAfterBytes - total else 0);
          total := total + bytes;
        case File(size) =>
          total := total + size;
        case Other =>
      }
      if total >= stopAfterBytes {
        return total;
      }
    }
    assert entries[|entries|..] == [];
  }

  // ---------------------------------------------------------------- the monitor

  /** What one poll, one finished walk or the caller does to the monitor. A walk
      sees the directory as it is at that time. */
  datatype Event =
    | Poll(childExited: bool)
    | WalkDone(tree: seq<Entry>, bytes: nat)
    | WalkFailed
    | Handled
    | Stop

  /** What the monitor is busy with between two turns of the event loop. */
  datatype Task = Nothing | Walking | Reporting

  datatype State = State(stopped: bool, checking: bool, task: Task, reports: seq<nat>)

  const INITIAL := State(false, false, Nothing, [])

  function Rested(s: State): State {
    s.(checking := false, task := Nothing)
  }

  function Step(s: State, e: Event, maximumBytes: nat): State {
    match e
    case Poll(childExited) =>
      if s.stopped || s.checking then s
      else if childExited then s.(stopped := true)
      else s.(checking := true, task := Walking)
    case WalkDone(tree, bytes) =>
      if !s.task.Walking? then s
      else if !s.stopped && bytes > maximumBytes then
        s.(stopped := true, task := Reporting, reports := s.reports + [bytes])
      else Rested(s)
    case WalkFailed => if s.task.Walking? then Rested(s) else s
    case Handled => if s.task.Reporting? then Rested(s) else s
    case Stop => s.(stopped := true)
  }

  function Run(events: seq<Event>, maximumBytes: nat): State {
    if events == [] then INITIAL
    else Step(Run(events[..|events| - 1], maximumBytes), events[|events| - 1], maximumBytes)
  }

  /** Walks are asked to stop just past the maximum. */
  ghost predicate Faithful(e: Event, maximumBytes: nat) {
    e.WalkDone? ==> WalkResult(TotalSize(e.tree), e.bytes, maximumBytes + 1, Largest(e.tree))
  }

  ghost predicate AllFaithful(events: seq<Event>, maximumBytes: nat) {
    forall k :: 0 <= k < |events| ==> Faithful(events[k], maximumBytes)
  }

  /** A walk ends while the monitor is on, and the tree is really too large. */
  ghost predicate Exceeds(events: seq<Event>, k: nat, maximumBytes: nat)
    requires k < |events|
  {
    && events[k].WalkDone? && TotalSize(events[k].tree) > maximumBytes
    && Run(events[..k], maximumBytes).task.Walking? && !Run(events[..k], maximumBytes).stopped
  }

  lemma {:induction false} CheckingMeansBusy(events: seq<Event>, maximumBytes: nat)
    ensures var s := Run(events, maximumBytes);
      (s.checking <==> !s.task.Nothing?) && (s.reports != [] ==> s.stopped)
  {
    if events != [] {
      CheckingMeansBusy(events[..|events| - 1], maximumBytes);
    }
  }

  lemma ExceedsEarlier(events: seq<Event>, k: nat, maximumBytes: nat)
    requires k + 1 < |events|
    ensures Exceeds(events, k, maximumBytes) <==> Exceeds(events[..|events| - 1], k, maximumBytes)
  {
    assert events[..|events| - 1][..k] == events[..k];
  }

  /** Whatever happens in whatever order, the monitor reports exactly if a walk
      that ended while it was on was over a tree that really was too large, and it
      reports no more than once. The walks need not have measured all of it. */
  lemma {:induction false} ReportsExactly(events: seq<Event>, maximumBytes: nat)
    requires AllFaithful(events, maximumBytes)
    ensures Run(events, maximumBytes).reports != [] <==>
      exists k :: 0 <= k < |events| && Exceeds(events, k, maximumBytes)
    ensures |Run(events, maximumBytes).reports| <= 1
  {
    if events != [] {
      var init, last := events[..|events| - 1], |events| - 1;
      ReportsExactly(init, maximumBytes);
      CheckingMeansBusy(init, maximumBytes);
      forall k | 0 <= k < last ensures Exceeds(events, k, maximumBytes) <==> Exceeds(init, k, maximumBytes) {
        ExceedsEarlier(events, k, maximumBytes);
      }
      if Run(init, maximumBytes).reports != [] {
        var k :| 0 <= k < |init| && Exceeds(init, k, maximumBytes);
        assert Exceeds(events, k, maximumBytes);
      } else if Run(events, maximumBytes).reports != [] {
        assert Exceeds(events, last, maximumBytes);
      }
    }
  }

  lemma RunOne(history: seq<Event>, e: Event, maximumBytes: nat)
    ensures Run(history + [e], maximumBytes) == Step(Run(history, maximumBytes), e, maximumBytes)
  {
    assert (history + [e])[..|history|] == history;
  }

  /** Whatever follows, nothing more is reported. */
  ghost predicate Quiet(history: seq<Event>, maximumBytes: nat) {
    forall after :: Run(history + after, maximumBytes).reports == Run(history, maximumBytes).reports
  }

  lemma {:induction false} StoppedOnward(before: seq<Event>, after: seq<Event>, maximumBytes: nat)
    requires Run(before, maximumBytes).stopped
    ensures Run(before + after, maximumBytes).stopped
    ensures Run(before + after, maximumBytes).reports == Run(before, maximumBytes).reports
  {
    if after == [] {
      assert before + after == before;
    } else {
      var init := after[..|after| - 1];
      StoppedOnward(before, init, maximumBytes);
      RunOne(before + init, after[|after| - 1], maximumBytes);
      LastApart(before, after);
    }
  }

  lemma QuietOnceStopped(history: seq<Event>, maximumBytes: nat)
    requires Run(history, maximumBytes).stopped
    ensures Quiet(history, maximumBytes)
  {
    forall after ensures Run(history + after, maximumBytes).reports == Run(history, maximumBytes).reports {
      StoppedOnward(history, after, maximumBytes);
    }
  }

  /** The monitor as it runs between two turns of the event loop; `history` is what
      has happened to it so far. */
  class Monitor {
    const maximumBytes: nat
    var stopped: bool
    var checking: bool
    var reports: seq<nat>
    ghost var task: Task
    ghost var history: seq<Event>

    ghost function Now(): State
      reads this
    {
      State(stopped, checking, task, reports)
    }

    ghost predicate Valid()
      reads this
    {
      Now() == Run(history, maximumBytes) && AllFaithful(history, maximumBytes)
    }

    constructor (maximumBytes: nat)
      ensures Valid() && history == [] && this.maximumBytes == maximumBytes
      ensures !stopped && task.Nothing? && reports == []
    {
      this.maximumBytes := maximumBytes;
      stopped, checking, reports := false, false, [];
      task, history := Nothing, [];
    }

    /** Every event goes on record before it is handled. */
    ghost method Record(e: Event)
      requires Valid() && Faithful(e, maximumBytes)
      modifies this`history
      ensures history == old(history) + [e] && AllFaithful(history, maximumBytes)
      ensures Run(history, maximumBytes) == Step(Now(), e, maximumBytes)
      ensures (checking <==> !task.Nothing?) && (reports != [] ==> stopped)
      ensures Run(history, maximumBytes).stopped ==> Quiet(history, maximumBytes)
    {
      CheckingMeansBusy(history, maximumBytes);
      RunOne(history, e, maximumBytes);
      history := history + [e];
      if Run(history, maximumBytes).stopped {
        QuietOnceStopped(history, maximumBytes);
      }
    }

    /** One poll. A walk is started only while nothing was reported and no other
        walk or report is under way; once the child has exited none ever is. */
    method Tick(childExited: bool) returns (start: bool)
      requires Valid()
      modifies this
      ensures Valid() && history == old(history) + [Poll(childExited)] && reports == old(reports)
      ensures start <==> !old(stopped) && old(task).Nothing? && !childExited
      ensures start ==> task.Walking? && reports == []
      ensures stopped <==> old(stopped) || (old(task).Nothing? && childExited)
      ensures !start ==> task == old(task)
      ensures !start && task.Nothing? ==> Quiet(history, maximumBytes)
    {
      Record(Poll(childExited));
      if stopped || checking {
        return false;
      }
      if childExited {
        stopped := true;
        return false;
      }
      checking, task := true, Walking;
      return true;
    }

    /** A walk over `tree` from start to end: it fires exactly if the monitor is
        still on and the tree is too large, although it does not measure all of it. */
    method Check(tree: seq<Entry>) returns (fires: bool)
      requires Valid() && task.Walking?
      modifies this
      ensures Valid() && exists bytes :: history == old(history) + [WalkDone(tree, bytes)]
      ensures fires <==> !old(stopped) && TotalSize(tree) > maximumBytes
      ensures if fires then |reports| == 1 && maximumBytes < reports[0] <= TotalSize(tree) else reports == old(reports)
      ensures fires ==> reports[0] <= maximumBytes + Largest(tree)
      ensures stopped <==> old(stopped) || fires
      ensures fires ==> Quiet(history, maximumBytes) && task.Reporting?
      ensures !fires ==> task.Nothing?
    {
      var bytes := DirectorySizeBytes(tree, maximumBytes + 1);
      Record(WalkDone(tree, bytes));
      fires := !stopped && bytes > maximumBytes;
      if fires {
        stopped, task := true, Reporting;
        reports := reports + [bytes];
      } else {
        checking, task := false, Nothing;
      }
    }

    /** A walk that failed, or a report that was handled: the next poll may start one. */
    method Rest(e: Event)
      requires Valid() && ((e.WalkFailed? && task.Walking?) || (e.Handled? && task.Reporting?))
      modifies this
      ensures Valid() && history == old(history) + [e] && task.Nothing? && reports == old(reports)
      ensures stopped == old(stopped)
    {
      Record(e);
      checking, task := false, Nothing;
    }

    /** The stop function given to the caller. */
    method StopMonitor()
      requires Valid()
      modifies this
      ensures Valid() && history == old(history) + [Stop]
      ensures reports == old(reports) && stopped && task == old(task) && Quiet(history, maximumBytes)
    {
      Record(Stop);
      stopped := true;
    }
  }
}
