/**
 The canary run and the files it leaves behind.  A run may be killed after any of its clock
 readings and disk writes; a later run resumes from the files.
 */
module Canary {
  import opened Options
  import opened CanaryChain
  import opened CanaryLoader

  // --------------------------------------------------------------- files of runs

  /** The file a checkpoint is saved in. */
  function FileFor(c: Checkpoint): File {
    File(c.nextIndex, Hash(c), c, c.probes, Hash(c))
  }

  /** `after` adds one probe to `before`, by the same run or by the next attempt, and is
      final exactly when the schedule is complete. */
  ghost predicate AddsProbe(before: Checkpoint, after: Checkpoint)
    requires after.interval > 0
  {
    && before.state.Incomplete?
    && after.site == before.site && after.duration == before.duration && after.interval == before.interval
    && after.started == before.started
    && |after.probes| == |before.probes| + 1 && before.probes <= after.probes
    && before.attempt <= after.attempt <= before.attempt + 1
    && (after.state.Incomplete? <==> after.nextIndex <= after.duration / after.interval)
  }

  /** A checkpoint that runs can have saved, as all before it. */
  ghost predicate Grown(c: Checkpoint) {
    && c.interval > 0 && WellFormed(c, c.duration, c.interval)
    && (if c.prior.Genesis? then c.probes == [] && c.state.Incomplete?
        else AddsProbe(c.prior.body, c) && Grown(c.prior.body))
  }

  /** The files are the checkpoints on the path to `tip`, in the order they were saved. */
  ghost predicate SavedTo(files: seq<File>, tip: Checkpoint) {
    && Grown(tip)
    && |files| == |PathTo(tip)|
    && forall i :: 0 <= i < |files| ==> files[i] == FileFor(PathTo(tip)[i])
  }

  lemma {:induction false} GrownPath(tip: Checkpoint, i: nat)
    requires Grown(tip) && i < |PathTo(tip)|
    ensures var c := PathTo(tip)[i];
            && Grown(c) && c.site == tip.site && c.duration == tip.duration && c.interval == tip.interval
            && c.lastObserved <= tip.lastObserved && |PathTo(c)| == i + 1
    decreases tip
  {
    if i == |PathTo(tip)| - 1 {
    } else {
      GrownPath(tip.prior.body, i);
      assert ProbeOk(tip, |tip.probes| - 1);
    }
  }

  lemma {:induction false} GrownIsLinked(tip: Checkpoint)
    requires Grown(tip)
    ensures Linked(tip)
  {
    if !tip.prior.Genesis? {
      GrownIsLinked(tip.prior.body);
    }
  }

  /** What runs leave is a chain. */
  lemma SavedIsChain(files: seq<File>, tip: Checkpoint)
    requires SavedTo(files, tip)
    ensures ChainTo(files, tip.site, tip.duration, tip.interval, tip)
  {
    GrownIsLinked(tip);
    forall i | 0 <= i < |files|
      ensures FileOk(files[i], tip.site, tip.duration, tip.interval)
      ensures |PathTo(files[i].body)| == i + 1
    {
      GrownPath(tip, i);
    }
    forall c
      ensures c in PathTo(tip) <==> exists i :: 0 <= i < |files| && files[i].body == c
    {
      if c in PathTo(tip) {
        var i :| 0 <= i < |PathTo(tip)| && PathTo(tip)[i] == c;
        assert files[i].body == c;
      }
    }
  }

  /** The loader accepts the files of any interrupted and resumed runs exactly while no
      clock reading lies before a file and the tip is fresh. */
  lemma SavedIsAccepted(files: seq<File>, tip: Checkpoint, clock: nat -> real)
    requires SavedTo(files, tip)
    ensures Acceptable(files, tip.site, tip.duration, tip.interval, clock, tip) <==>
            && (forall i :: 0 <= i < |files| ==> files[i].body.lastObserved as real <= clock(i))
            && tip.lastObserved as real <= clock(|files|) && Fresh(tip, clock(|files|))
    ensures (forall i :: 0 <= i <= |files| ==> tip.lastObserved as real <= clock(i)) && Fresh(tip, clock(|files|))
            ==> Acceptable(files, tip.site, tip.duration, tip.interval, clock, tip)
  {
    SavedIsChain(files, tip);
    forall i | 0 <= i < |files|
      ensures files[i].body.lastObserved <= tip.lastObserved
    {
      GrownPath(tip, i);
    }
  }

  /** The tip the loader finds is the checkpoint saved last. */
  lemma LoadedIsLast(files: seq<File>, tip: Checkpoint, site: nat, duration: nat, interval: nat, loaded: Checkpoint)
    requires interval > 0 && SavedTo(files, tip) && ChainTo(files, site, duration, interval, loaded)
    ensures loaded == tip && tip.site == site && tip.duration == duration && tip.interval == interval
  {
    SavedIsChain(files, tip);
    forall c
      ensures c in PathTo(tip) <==> c in PathTo(loaded)
    {
      assert c in PathTo(tip) <==> exists i :: 0 <= i < |files| && files[i].body == c;
    }
    SamePathSameTip(tip, loaded);
    TipIsLast(tip);
    assert files[|files| - 1] in files;
    assert FileOk(files[|files| - 1], site, duration, interval);
  }

  // ------------------------------------------------------------------- a run

  /** The in-memory checkpoint after a probe; `saved` is the digest last written. */
  function WithProbe(c: Checkpoint, passed: bool, completed: int, saved: Digest): Checkpoint {
    c.(probes := c.probes + [Probe(c.nextIndex, passed, c.nextAt, completed)],
       prior := saved, nextIndex := c.nextIndex + 1, nextAt := Slot(c, c.nextIndex + 1), lastObserved := completed)
  }

  /** Every probe of the schedule has been taken. */
  predicate AllTaken(c: Checkpoint) {
    c.interval > 0 && c.nextIndex == c.duration / c.interval + 1
  }

  predicate InSlot(c: Checkpoint, completed: int) {
    c.nextAt <= completed && c.lastObserved <= completed <= c.nextAt + c.interval * 1000
  }

  predicate SlotOver(c: Checkpoint, now: real) {
    now >= (c.nextAt + c.interval * 1000) as real
  }

  /** Saving a checkpoint with one more probe extends what is saved. */
  lemma OneMoreProbe(before: Checkpoint, attempt: nat, passed: bool, completed: int, state: Lifecycle)
    requires Grown(before) && before.state.Incomplete? && before.nextIndex < MAX_PROBES
    requires before.nextIndex <= before.duration / before.interval
    requires before.attempt <= attempt <= before.attempt + 1 && InSlot(before, completed)
    requires state.Incomplete? <==> before.nextIndex + 1 <= before.duration / before.interval
    ensures var after := WithProbe(before.(attempt := attempt), passed, completed, Hash(before)).(state := state);
            Grown(after) && PathTo(after) == PathTo(before) + [after]
  {
    var after := WithProbe(before.(attempt := attempt), passed, completed, Hash(before)).(state := state);
    forall i | 0 <= i < |after.probes|
      ensures ProbeOk(after, i)
    {
      if i < |before.probes| {
        assert ProbeOk(before, i);
      }
    }
  }

  lemma SaveProbe(files: seq<File>, before: Checkpoint, attempt: nat, passed: bool, completed: int, state: Lifecycle)
    requires SavedTo(files, before) && before.state.Incomplete? && before.nextIndex < MAX_PROBES
    requires before.nextIndex <= before.duration / before.interval
    requires before.attempt <= attempt <= before.attempt + 1 && InSlot(before, completed)
    requires state.Incomplete? <==> before.nextIndex + 1 <= before.duration / before.interval
    ensures var after := WithProbe(before.(attempt := attempt), passed, completed, Hash(before)).(state := state);
            SavedTo(files + [FileFor(after)], after)
  {
    OneMoreProbe(before, attempt, passed, completed, state);
  }

  /** The checkpoint of a run that has done nothing yet. */
  function First(site: nat, attempt: nat, duration: nat, interval: nat, started: int): Checkpoint {
    Checkpoint(site, attempt, Incomplete, duration, interval, started, started + duration * 1000, 0, started, started,
               [], Genesis)
  }

  lemma FirstIsGrown(site: nat, attempt: nat, duration: nat, interval: nat, started: int)
    requires interval > 0 && attempt >= 1
    ensures var c := First(site, attempt, duration, interval, started); SavedTo([FileFor(c)], c)
  {
    var c := First(site, attempt, duration, interval, started);
    assert PathTo(c) == [c];
    assert Slot(c, 0) == started;
  }

  // ------------------------------------------------------------------- reports

  datatype Report = Report(
    healthy: bool,
    probes: seq<Probe>,
    failures: nat,
    duration: nat,
    interval: nat,
    observed: int,
    started: int,
    finished: int)

  function Failures(probes: seq<Probe>): nat {
    if probes == [] then 0
    else Failures(probes[..|probes| - 1]) + (if probes[|probes| - 1].passed then 0 else 1)
  }

  lemma {:induction false} NoFailures(probes: seq<Probe>)
    ensures Failures(probes) == 0 <==> forall i :: 0 <= i < |probes| ==> probes[i].passed
  {
    if probes != [] {
      NoFailures(probes[..|probes| - 1]);
      assert forall i :: 0 <= i < |probes| - 1 ==> probes[..|probes| - 1][i] == probes[i];
    }
  }

  /** Probe `i` was due `i` intervals after the start, ran within one interval of that, and
      after the one before. */
  predicate OnSchedule(probes: seq<Probe>, started: int, interval: nat, i: nat)
    requires i < |probes|
  {
    var p := probes[i];
    && p.index == i
    && p.scheduled == started + i * interval * 1000
    && p.scheduled <= p.completed <= p.scheduled + interval * 1000
    && (if i == 0 then started else probes[i - 1].completed) <= p.completed
  }

  /** What a finished run reports, however often it was interrupted. */
  ghost predicate Truthful(r: Report) {
    && r.interval > 0
    && |r.probes| == r.duration / r.interval + 1
    && (forall i :: 0 <= i < |r.probes| ==> OnSchedule(r.probes, r.started, r.interval, i))
    && r.finished >= r.started + r.duration * 1000
    && r.finished >= r.probes[|r.probes| - 1].completed
    && r.observed == r.finished - r.started
    && (r.healthy <==> forall i :: 0 <= i < |r.probes| ==> r.probes[i].passed)
    && (r.healthy <==> r.failures == 0)
  }

  /** No slot on the schedule is cut short by the deadline. */
  lemma SlotBeforeDeadline(c: Checkpoint, i: nat)
    requires c.interval > 0 && c.deadline == c.started + c.duration * 1000 && i <= c.duration / c.interval
    ensures Slot(c, i) == c.started + i * c.interval * 1000
  {
    var n := c.duration / c.interval;
    assert i * c.interval <= n * c.interval <= c.duration;
  }

  /** The report on a finished checkpoint. */
  function ReportOf(c: Checkpoint, finished: int): Report {
    var failures := Failures(c.probes);
    Report(failures == 0, c.probes, failures, c.duration, c.interval,
           if finished < c.started then 0 else finished - c.started, c.started, finished)
  }

  lemma ReportIsTruthful(c: Checkpoint, finished: int)
    requires c.interval > 0 && WellFormed(c, c.duration, c.interval) && !c.state.Incomplete?
    requires finished >= c.lastObserved && finished >= c.deadline
    ensures Truthful(ReportOf(c, finished))
  {
    NoFailures(c.probes);
    forall i | 0 <= i < |c.probes|
      ensures OnSchedule(c.probes, c.started, c.interval, i)
    {
      assert ProbeOk(c, i);
      SlotBeforeDeadline(c, i);
    }
  }

  // ------------------------------------------------------------ what a run does

  datatype Failure =
    | Killed | Refused(error: ChainError) | Replayed | FailedBefore | WrongAttempt
    | InvalidEpoch | ClockWentBack | SkippedProbe | TooManyProbes | Shortened

  /** How waiting for the slot ends, and the step after it. */
  function Waited(c: Checkpoint, clock: nat -> real, life: nat, tick: nat): (Option<Failure>, nat)
    decreases if tick < life then life - tick else 0
  {
    if tick >= life then (Some(Killed), tick)
    else if clock(tick) < c.lastObserved as real then (Some(ClockWentBack), tick + 1)
    else if SlotOver(c, clock(tick)) then (Some(SkippedProbe), tick + 1)
    else if clock(tick) >= c.nextAt as real then (None, tick + 1)
    else Waited(c, clock, life, tick + 1)
  }

  /** A checkpoint that can be written. */
  predicate Fits(c: Checkpoint) {
    |c.probes| == c.nextIndex <= MAX_PROBES
  }

  /** What one turn of the schedule makes of the checkpoint and the files, and the step after it. */
  datatype Turn = Turn(after: Result<Checkpoint, Failure>, files: seq<File>, next: nat)

  /** Wait, probe, and save unless it was the last. */
  function TurnOf(c: Checkpoint, files: seq<File>, clock: nat -> real, passes: nat -> bool, life: nat,
                  tick: nat): (t: Turn)
    requires c.interval > 0 && files != []
    ensures t.files != []
    ensures t.after.Ok? ==> t.after.value.duration == c.duration && t.after.value.interval == c.interval &&
                            t.after.value.nextIndex == c.nextIndex + 1
  {
    var (error, read) := Waited(c, clock, life, tick);
    if error.Some? then Turn(Err(error.value), files, read)
    else if read >= life then Turn(Err(Killed), files, read)
    else
      var completed := clock(read).Floor;
      var after := WithProbe(c, passes(c.nextIndex), completed, files[|files| - 1].digest);
      if !InSlot(c, completed) then Turn(Err(SkippedProbe), files, read + 1)
      else if after.nextIndex > c.duration / c.interval then Turn(Ok(after), files, read + 1)
      else if read + 1 >= life then Turn(Err(Killed), files, read + 1)
      else if !Fits(after) then Turn(Err(TooManyProbes), files, read + 2)
      else Turn(Ok(after), files + [FileFor(after)], read + 2)
  }

  /** What a run has come to: its result, the files it leaves, and the steps it took. */
  datatype Progress = Progress(result: Result<Report, Failure>, files: seq<File>, steps: nat)

  /** The terminal checkpoint that goes with the last probe. */
  function TerminalOf(c: Checkpoint, files: seq<File>): Checkpoint
    requires files != []
  {
    c.(state := if Failures(c.probes) == 0 then TerminalIssued else FailedRun, prior := files[|files| - 1].digest)
  }

  /** The end of the schedule: one more reading, the terminal checkpoint, and the report. */
  function FinishOf(c: Checkpoint, files: seq<File>, clock: nat -> real, life: nat, tick: nat): Progress
    requires files != []
  {
    if tick >= life then Progress(Err(Killed), files, tick)
    else
      var finished := clock(tick).Floor;
      var last := TerminalOf(c, files);
      if finished < c.lastObserved || finished < c.deadline then Progress(Err(Shortened), files, tick + 1)
      else if tick + 1 >= life then Progress(Err(Killed), files, tick + 1)
      else if !Fits(last) then Progress(Err(TooManyProbes), files, tick + 2)
      else Progress(Ok(ReportOf(last, finished)), files + [FileFor(last)], tick + 2)
  }

  /** The rest of a run, from checkpoint `c` at step `tick`. */
  function ProceedOf(c: Checkpoint, files: seq<File>, clock: nat -> real, passes: nat -> bool, life: nat,
                     tick: nat): Progress
    requires c.interval > 0 && files != []
    decreases if c.nextIndex <= c.duration / c.interval then c.duration / c.interval + 1 - c.nextIndex else 0
  {
    if c.nextIndex > c.duration / c.interval then FinishOf(c, files, clock, life, tick)
    else
      var t := TurnOf(c, files, clock, passes, life, tick);
      if t.after.Err? then Progress(Err(t.after.error), t.files, t.next)
      else ProceedOf(t.after.value, t.files, clock, passes, life, t.next)
  }

  /** The files may be resumed by this attempt. */
  ghost predicate MayResume(files: seq<File>, site: nat, attempt: nat, duration: nat, interval: nat, clock: nat -> real)
    requires interval > 0
  {
    && files != [] && Acceptable(files, site, duration, interval, clock, files[|files| - 1].body)
    && files[|files| - 1].body.state.Incomplete? && attempt == files[|files| - 1].body.attempt + 1
  }

  /** Why they may not. */
  ghost predicate RefusedFor(files: seq<File>, site: nat, attempt: nat, duration: nat, interval: nat,
                             clock: nat -> real, error: Failure)
    requires interval > 0
  {
    if files == [] || !Acceptable(files, site, duration, interval, clock, files[|files| - 1].body) then error.Refused?
    else match files[|files| - 1].body.state
      case TerminalIssued => error == Replayed
      case FailedRun => error == FailedBefore
      case Incomplete => error == WrongAttempt && attempt != files[|files| - 1].body.attempt + 1
  }

  // ------------------------------------------------------------------ the runner

  /** The state directory of one workflow run. */
  class StateDirectory {
    var created: bool
    var files: seq<File>

    /** The directory is what runs leave: nothing, or the saved checkpoints of a chain. */
    ghost predicate Valid()
      reads this
    {
      && (!created ==> files == [])
      && (files != [] ==> SavedTo(files, files[|files| - 1].body))
    }

    constructor ()
      ensures Valid() && !created
    {
      created, files := false, [];
    }

    /** Writes one checkpoint file, unless it holds too many probes. */
    method Persist(c: Checkpoint) returns (ok: bool)
      modifies this`files
      ensures ok <==> |c.probes| == c.nextIndex <= MAX_PROBES
      ensures files == if ok then old(files) + [FileFor(c)] else old(files)
    {
      ok := |c.probes| <= MAX_PROBES && |c.probes| == c.nextIndex;
      if ok {
        files := files + [FileFor(c)];
      }
    }

    /** Waits for the slot; the clock is read from `tick` on. */
    static method WaitForSlot(c: Checkpoint, clock: nat -> real, life: nat, tick: nat)
      returns (error: Option<Failure>, next: nat)
      ensures (error, next) == Waited(c, clock, life, tick)
    {
      next := tick;
      while true
        invariant Waited(c, clock, life, next) == Waited(c, clock, life, tick)
        decreases life - next
      {
        if next >= life { return Some(Killed), next; }
        var now := clock(next);
        next := next + 1;
        if now < c.lastObserved as real { return Some(ClockWentBack), next; }
        if SlotOver(c, now) { return Some(SkippedProbe), next; }
        if now >= c.nextAt as real { return None, next; }
      }
    }

    /** Finds the checkpoint to resume from, as `attempt`. */
    method Discover(site: nat, attempt: nat, duration: nat, interval: nat, clock: nat -> real)
      returns (r: Result<Checkpoint, Failure>)
      requires Valid() && interval > 0
      ensures r.Ok? <==> MayResume(files, site, attempt, duration, interval, clock)
      ensures r.Ok? ==> r.value == files[|files| - 1].body
                        && r.value.site == site && r.value.duration == duration && r.value.interval == interval
      ensures r.Err? ==> RefusedFor(files, site, attempt, duration, interval, clock, r.error)
    {
      if files == [] { return Err(Refused(NoChain)); }
      ghost var tip := files[|files| - 1].body;
      var loaded := LoadDurableChain(files, site, duration, interval, clock);
      if loaded.Err? { return Err(Refused(loaded.error)); }
      var c := loaded.value;
      LoadedIsLast(files, tip, site, duration, interval, c);
      if c.state.TerminalIssued? { return Err(Replayed); }
      if c.state.FailedRun? { return Err(FailedBefore); }
      if attempt != c.attempt + 1 { return Err(WrongAttempt); }
      r := Ok(c);
    }

    ghost function Last(): Checkpoint
      requires files != []
      reads this
    {
      files[|files| - 1].body
    }

    /** The last probe is in memory and not saved: the schedule is complete. */
    ghost predicate LastUnsaved(attempt: nat, c: Checkpoint, passed: bool, completed: int)
      requires files != [] && Last().interval > 0
      reads this
    {
      && c == WithProbe(Last().(attempt := attempt), passed, completed, Hash(Last()))
      && InSlot(Last(), completed) && Last().nextIndex == Last().duration / Last().interval
    }

    /** A run of number `attempt` is under way, with checkpoint `c` in memory. */
    ghost predicate Running(attempt: nat, c: Checkpoint)
      reads this
    {
      && created && files != [] && SavedTo(files, Last())
      && Last().state.Incomplete? && Last().attempt <= attempt <= Last().attempt + 1
      && (c == Last().(attempt := attempt) || exists passed, completed :: LastUnsaved(attempt, c, passed, completed))
    }

    /** Files written by a run carry its attempt number, and none is removed. */
    ghost predicate Appended(before: seq<File>, attempt: nat)
      reads this
    {
      before <= files && forall i :: |before| <= i < |files| ==> files[i].body.attempt == attempt
    }

    /** Resumes from the files, or starts afresh; `next` is the next step of the process.  A
        process that dies while it loads counts as killed, whatever it would have found. */
    method Begin(site: nat, attempt: nat, duration: nat, interval: nat, clock: nat -> real, life: nat)
      returns (r: Result<Checkpoint, Failure>, next: nat)
      requires Valid() && interval > 0 && attempt >= 1
      modifies this
      ensures Valid() && next <= life
      ensures created == (old(created) || life > 0)
      ensures old(created) ==>
                && files == old(files)
                && (r == Err(Killed) <==> life <= |files|)
                && (r.Ok? <==> life > |files| && MayResume(files, site, attempt, duration, interval, clock))
                && (r.Ok? ==> r.value == Last().(attempt := attempt) && next == |files| + 1)
                && (r.Err? && life > |files| ==> RefusedFor(files, site, attempt, duration, interval, clock, r.error))
      ensures !old(created) ==>
                var first := First(site, attempt, duration, interval, clock(1).Floor);
                && (r == Err(Killed) <==> life <= 1 || (life == 2 && clock(1) >= 0.0))
                && (r == Err(InvalidEpoch) <==> life >= 2 && clock(1) < 0.0)
                && (r.Ok? <==> life >= 3 && clock(1) >= 0.0)
                && (r.Ok? ==> r.value == first && files == [FileFor(first)] && next == 3)
                && (r.Err? ==> files == [])
      ensures r == Err(Killed) ==> next == life
      ensures r.Ok? ==>
                && Running(attempt, r.value) && r.value == Last().(attempt := attempt)
                && r.value.site == site && r.value.duration == duration && r.value.interval == interval
                && r.value.nextIndex <= duration / interval
    {
      if created {
        if life <= |files| { return Err(Killed), life; }
        r := Discover(site, attempt, duration, interval, clock);
        if r.Ok? {
          r := Ok(r.value.(attempt := attempt));
        }
        return r, |files| + 1;
      }
      if life == 0 { return Err(Killed), 0; }
      created := true;
      if life == 1 { return Err(Killed), 1; }
      if clock(1) < 0.0 { return Err(InvalidEpoch), 2; }
      if life == 2 { return Err(Killed), 2; }
      var c := First(site, attempt, duration, interval, clock(1).Floor);
      FirstIsGrown(site, attempt, duration, interval, clock(1).Floor);
      var ok := Persist(c);
      r, next := Ok(c), 3;
    }

    /** What holds after a probe was taken, and saved if it was not the last. */
    lemma TurnIsRunning(before: seq<File>, c: Checkpoint, attempt: nat, passed: bool, completed: int, after: Checkpoint)
      requires created && before != [] && SavedTo(before, before[|before| - 1].body)
      requires before[|before| - 1].body.state.Incomplete?
      requires before[|before| - 1].body.attempt <= attempt <= before[|before| - 1].body.attempt + 1
      requires c == before[|before| - 1].body.(attempt := attempt) && InSlot(c, completed)
      requires c.interval > 0 && c.nextIndex <= c.duration / c.interval
      requires after == WithProbe(c, passed, completed, before[|before| - 1].digest)
      requires if after.nextIndex <= c.duration / c.interval then Fits(after) && files == before + [FileFor(after)]
               else files == before
      ensures Running(attempt, after) && Valid() && Appended(before, attempt)
    {
      var tip := before[|before| - 1].body;
      TipIsLast(tip);
      assert before[|before| - 1] == FileFor(tip);
      if after.nextIndex <= c.duration / c.interval {
        SaveProbe(before, tip, attempt, passed, completed, Incomplete);
        hide SavedTo;
        assert Last() == after && after == after.(attempt := attempt);
      } else {
        hide SavedTo;
        assert LastUnsaved(attempt, after, passed, completed);
      }
    }

    /** With probes to come the checkpoint in memory is the one saved last. */
    lemma NotAllTaken(attempt: nat, c: Checkpoint)
      requires Running(attempt, c) && c.nextIndex <= c.duration / c.interval
      ensures c == Last().(attempt := attempt)
    {
      hide SavedTo;
    }

    /** One turn of the schedule: wait, probe, and save unless it was the last. */
    method TakeProbe(c: Checkpoint, attempt: nat, clock: nat -> real, passes: nat -> bool, life: nat, tick: nat)
      returns (r: Result<Checkpoint, Failure>, next: nat)
      requires Running(attempt, c) && c.interval > 0 && c.nextIndex <= c.duration / c.interval
      modifies this`files
      ensures Turn(r, files, next) == TurnOf(c, old(files), clock, passes, life, tick)
      ensures Valid() && Appended(old(files), attempt)
      ensures r.Ok? ==> Running(attempt, r.value)
    {
      RunningIsValid(attempt, c);
      NotAllTaken(attempt, c);
      ghost var before := files;
      assert SavedTo(files, Last());
      hide SavedTo, Valid, Appended, Waited, WithProbe, InSlot;
      var error, read := WaitForSlot(c, clock, life, tick);
      next := read;
      if error.Some? { return Err(error.value), next; }
      if next >= life { return Err(Killed), next; }
      var passed, completed := passes(c.nextIndex), clock(next).Floor;
      next := next + 1;
      if !InSlot(c, completed) { return Err(SkippedProbe), next; }
      var after := WithProbe(c, passed, completed, files[|files| - 1].digest);
      if after.nextIndex <= c.duration / c.interval {
        if next >= life { return Err(Killed), next; }
        var ok := Persist(after);
        next := next + 1;
        if !ok { return Err(TooManyProbes), next; }
      }
      TurnIsRunning(before, c, attempt, passed, completed, after);
      r := Ok(after);
    }

    /** The files end in the terminal checkpoint of a run that ended at `r.finished`. */
    ghost predicate Issued(r: Report)
      reads this
    {
      && files != [] && r == ReportOf(Last(), r.finished)
      && r.finished >= Last().lastObserved && r.finished >= Last().deadline
      && Last().state == if r.healthy then TerminalIssued else FailedRun
    }

    /** However often the run was interrupted and resumed, its report tells the truth. */
    lemma IssuedIsTruthful(r: Report)
      requires Valid() && Issued(r)
      ensures Truthful(r)
    {
      ReportIsTruthful(Last(), r.finished);
    }

    lemma TerminalIsNext(c: Checkpoint, attempt: nat)
      requires Running(attempt, c) && AllTaken(c) && c.nextIndex <= MAX_PROBES
      ensures SavedTo(files + [FileFor(TerminalOf(c, files))], TerminalOf(c, files)) && c.attempt == attempt
    {
      var before := Last();
      var passed, completed :| LastUnsaved(attempt, c, passed, completed);
      assert |before.probes| == before.nextIndex == before.duration / before.interval;
      TipIsLast(before);
      assert files[|files| - 1] == FileFor(before);
      hide Grown, WellFormed, SavedTo;
      SaveProbe(files, before, attempt, passed, completed, TerminalOf(c, files).state);
    }

    lemma RunningIsValid(attempt: nat, c: Checkpoint)
      requires Running(attempt, c)
      ensures Valid() && Appended(files, attempt)
    {
      hide SavedTo, LastUnsaved;
    }

    /** What holds once the terminal checkpoint is written after the files `before`. */
    lemma TerminalIsIssued(before: seq<File>, last: Checkpoint, attempt: nat, finished: int)
      requires created && files == before + [FileFor(last)] && SavedTo(files, last) && last.attempt == attempt
      requires last.state == if Failures(last.probes) == 0 then TerminalIssued else FailedRun
      requires finished >= last.lastObserved && finished >= last.deadline
      ensures Valid() && Appended(before, attempt) && Issued(ReportOf(last, finished))
    {
      hide SavedTo, Failures;
    }

    /** The end of the schedule: the terminal checkpoint and the report. */
    method Finish(c: Checkpoint, attempt: nat, clock: nat -> real, life: nat, tick: nat)
      returns (r: Result<Report, Failure>, next: nat)
      requires Running(attempt, c) && AllTaken(c)
      modifies this`files
      ensures Progress(r, files, next) == FinishOf(c, old(files), clock, life, tick)
      ensures Valid() && Appended(old(files), attempt)
      ensures r.Ok? ==> Issued(r.value) && r.value.duration == c.duration && r.value.interval == c.interval
    {
      assert created && files != [];
      hide Running, Valid, Appended, Issued, SavedTo, FileFor, Failures, LastUnsaved, AllTaken;
      RunningIsValid(attempt, c);
      if tick >= life { return Err(Killed), tick; }
      var finished := clock(tick).Floor;
      if finished < c.lastObserved || finished < c.deadline { return Err(Shortened), tick + 1; }
      if tick + 1 >= life { return Err(Killed), tick + 1; }
      var last := TerminalOf(c, files);
      if Fits(last) {
        TerminalIsNext(c, attempt);
      }
      var ok := Persist(last);
      if ok {
        TerminalIsIssued(old(files), last, attempt, finished);
      }
      r, next := if ok then Ok(ReportOf(last, finished)) else Err(TooManyProbes), tick + 2;
    }

    /** The rest of a run, from checkpoint `c0`. */
    method Proceed(c0: Checkpoint, attempt: nat, clock: nat -> real, passes: nat -> bool, life: nat, tick0: nat)
      returns (r: Result<Report, Failure>, next: nat)
      requires Running(attempt, c0) && c0.interval > 0 && c0.nextIndex <= c0.duration / c0.interval
      modifies this`files
      ensures Progress(r, files, next) == ProceedOf(c0, old(files), clock, passes, life, tick0)
      ensures Valid() && Appended(old(files), attempt)
      ensures r.Ok? ==> Issued(r.value) && r.value.duration == c0.duration && r.value.interval == c0.interval
    {
      var c, tick := c0, tick0;
      RunningIsValid(attempt, c0);
      hide Valid, SavedTo, LastUnsaved, TurnOf, Issued;
      while c.nextIndex <= c.duration / c.interval
        invariant Running(attempt, c) && c.duration == c0.duration && c.interval == c0.interval
        invariant c.nextIndex <= c0.duration / c0.interval + 1
        invariant Appended(old(files), attempt)
        invariant ProceedOf(c, files, clock, passes, life, tick) ==
                  ProceedOf(c0, old(files), clock, passes, life, tick0)
        decreases c0.duration / c0.interval + 1 - c.nextIndex
      {
        var taken, after := TakeProbe(c, attempt, clock, passes, life, tick);
        if taken.Err? { return Err(taken.error), after; }
        c, tick := taken.value, after;
      }
      r, next := Finish(c, attempt, clock, life, tick);
    }

    /** One run.  `clock(n)` is the reading at step `n`, `passes(i)` the outcome of probe `i`,
        and the process is killed when it has taken `life` steps. */
    method Run(site: nat, attempt: nat, duration: nat, interval: nat, clock: nat -> real, passes: nat -> bool,
               life: nat)
      returns (r: Result<Report, Failure>, steps: nat)
      requires Valid() && interval > 0
      modifies this
      ensures Valid() && Appended(old(files), attempt)
      ensures if attempt < 1 then r == Err(WrongAttempt) && files == old(files)
              else if old(created) then
                if life <= |old(files)| then r == Err(Killed) && files == old(files)
                else if MayResume(old(files), site, attempt, duration, interval, clock) then
                  Progress(r, files, steps) ==
                  ProceedOf(old(Last()).(attempt := attempt), old(files), clock, passes, life, |old(files)| + 1)
                else r.Err? && RefusedFor(files, site, attempt, duration, interval, clock, r.error) &&
                     files == old(files)
              else if life <= 1 then r == Err(Killed) && files == []
              else if clock(1) < 0.0 then r == Err(InvalidEpoch) && files == []
              else if life == 2 then r == Err(Killed) && files == []
              else
                var first := First(site, attempt, duration, interval, clock(1).Floor);
                Progress(r, files, steps) == ProceedOf(first, [FileFor(first)], clock, passes, life, 3)
      ensures r.Ok? ==> Issued(r.value) && r.value.duration == duration && r.value.interval == interval
      ensures created == (old(created) || (attempt >= 1 && life > 0))
    {
      hide Acceptable, SavedTo, RefusedFor, MayResume, ProceedOf, Issued;
      if attempt < 1 { return Err(WrongAttempt), 0; }
      var begun, tick := Begin(site, attempt, duration, interval, clock, life);
      if begun.Ok? {
        r, steps := Proceed(begun.value, attempt, clock, passes, life, tick);
      } else {
        r, steps := Err(begun.error), tick;
      }
    }
  }
}
