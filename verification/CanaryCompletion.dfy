/**
 What comes of a canary run: a kill is the only thing that cuts it short, every refusal by the
 clock has its cause, and a run completes exactly if the clock keeps its slots, as it does when the
 process sleeps to each slot and probes are done in time.
 */
module CanaryCompletion {
  import opened Options
  import opened CanaryChain
  import opened Canary

  // ------------------------------------------------------------------- waiting

  /** The reading neither ends the wait nor refuses it. */
  predicate Early(c: Checkpoint, now: real) {
    c.lastObserved as real <= now < c.nextAt as real
  }

  /** The wait is decided by the first reading that is not early, and by the kill if there is none. */
  lemma {:induction false} WaitIsExact(c: Checkpoint, clock: nat -> real, life: nat, tick: nat)
    requires tick <= life
    ensures var (error, next) := Waited(c, clock, life, tick);
            && tick <= next <= life
            && (forall i :: tick <= i < next - 1 ==> Early(c, clock(i)))
            && match error
               case None =>
                 next > tick && clock(next - 1) >= c.nextAt as real && clock(next - 1) >= c.lastObserved as real &&
                 !SlotOver(c, clock(next - 1))
               case Some(why) =>
                 match why
                 case Killed => next == life && (next > tick ==> Early(c, clock(next - 1)))
                 case ClockWentBack => next > tick && clock(next - 1) < c.lastObserved as real
                 case SkippedProbe =>
                   next > tick && SlotOver(c, clock(next - 1)) && clock(next - 1) >= c.lastObserved as real
                 case _ => false
    decreases life - tick
  {
    if tick < life && Early(c, clock(tick)) {
      WaitIsExact(c, clock, life, tick + 1);
    }
  }

  // ---------------------------------------------------------- kills and refusals

  /** A turn ends by a kill only when the process has taken all its steps; a probe counts as
      skipped only when its slot is over, or the clock went back while it ran; and the clock
      has gone back only behind what was observed before. */
  lemma TurnsEnd(c: Checkpoint, files: seq<File>, clock: nat -> real, passes: nat -> bool, life: nat, tick: nat)
    requires c.interval > 0 && files != [] && tick <= life
    ensures var t := TurnOf(c, files, clock, passes, life, tick);
            && tick <= t.next <= life && files <= t.files
            && (t.after == Err(Killed) ==> t.next == life && t.files == files)
            && (t.after == Err(SkippedProbe) ==>
                  t.next > 0 && (SlotOver(c, clock(t.next - 1)) ||
                                 (t.next > 1 && clock(t.next - 1) < clock(t.next - 2))))
            && (t.after == Err(ClockWentBack) ==> t.next > 0 && clock(t.next - 1) < c.lastObserved as real)
            && (t.after == Err(TooManyProbes) ==> |c.probes| != c.nextIndex || c.nextIndex >= MAX_PROBES)
            && (t.after.Err? ==> t.after.error in {Killed, SkippedProbe, ClockWentBack, TooManyProbes})
  {
    WaitIsExact(c, clock, life, tick);
    var (error, read) := Waited(c, clock, life, tick);
    if error.None? && read < life {
      FloorBelow(clock(read), c.nextAt);
      FloorBelow(clock(read), c.lastObserved);
      FloorBelow(clock(read), c.nextAt + c.interval * 1000);
    }
    hide Waited;
  }

  lemma FloorBelow(x: real, n: int)
    ensures x.Floor < n <==> x < n as real
    ensures x.Floor > n ==> x > n as real
  {
  }

  /** A run that is killed has taken all its steps. */
  lemma {:induction false} KilledAtTheEnd(c: Checkpoint, files: seq<File>, clock: nat -> real, passes: nat -> bool,
                                          life: nat, tick: nat)
    requires c.interval > 0 && files != [] && tick <= life
    ensures var p := ProceedOf(c, files, clock, passes, life, tick);
            p.steps <= life && files <= p.files && (p.result == Err(Killed) ==> p.steps == life)
    decreases c.duration / c.interval + 1 - c.nextIndex
  {
    if c.nextIndex <= c.duration / c.interval {
      TurnsEnd(c, files, clock, passes, life, tick);
      var t := TurnOf(c, files, clock, passes, life, tick);
      hide TurnOf;
      if t.after.Ok? {
        KilledAtTheEnd(t.after.value, t.files, clock, passes, life, t.next);
      }
    }
  }

  lemma {:induction false} WaitLonger(c: Checkpoint, clock: nat -> real, life: nat, longer: nat, tick: nat)
    requires tick <= life <= longer && Waited(c, clock, life, tick).0 != Some(Killed)
    ensures Waited(c, clock, longer, tick) == Waited(c, clock, life, tick)
    decreases life - tick
  {
    if tick < life && Early(c, clock(tick)) {
      WaitLonger(c, clock, life, longer, tick + 1);
    }
  }

  lemma TurnLonger(c: Checkpoint, files: seq<File>, clock: nat -> real, passes: nat -> bool, life: nat, longer: nat,
                   tick: nat)
    requires c.interval > 0 && files != [] && tick <= life <= longer
    requires TurnOf(c, files, clock, passes, life, tick).after != Err(Killed)
    ensures TurnOf(c, files, clock, passes, longer, tick) == TurnOf(c, files, clock, passes, life, tick)
  {
    WaitIsExact(c, clock, life, tick);
    WaitLonger(c, clock, life, longer, tick);
  }

  /** A kill only cuts a run short: with a longer life it goes on from the same files, and a run
      that was not killed is the same with any longer life. */
  lemma {:induction false} LongerLife(c: Checkpoint, files: seq<File>, clock: nat -> real, passes: nat -> bool,
                                      life: nat, longer: nat,
                                      tick: nat)
    requires c.interval > 0 && files != [] && tick <= life <= longer
    ensures var p := ProceedOf(c, files, clock, passes, life, tick);
            var q := ProceedOf(c, files, clock, passes, longer, tick);
            p.files <= q.files && (p.result != Err(Killed) ==> p == q)
    decreases c.duration / c.interval + 1 - c.nextIndex
  {
    KilledAtTheEnd(c, files, clock, passes, longer, tick);
    if c.nextIndex <= c.duration / c.interval {
      var t := TurnOf(c, files, clock, passes, life, tick);
      TurnsEnd(c, files, clock, passes, life, tick);
      if t.after != Err(Killed) {
        TurnLonger(c, files, clock, passes, life, longer, tick);
        hide TurnOf;
        if t.after.Ok? {
          LongerLife(t.after.value, t.files, clock, passes, life, longer, t.next);
        }
      }
    }
  }

  // ------------------------------------------------------- when a run completes

  /** The parts of a checkpoint that the schedule depends on. */
  ghost predicate Planned(c: Checkpoint) {
    && c.interval > 0 && c.deadline == c.started + c.duration * 1000
    && |c.probes| == c.nextIndex && c.nextAt == Slot(c, c.nextIndex)
  }

  /** Two checkpoints of one schedule. */
  ghost predicate SamePlan(c: Checkpoint, d: Checkpoint) {
    && c.started == d.started && c.duration == d.duration && c.interval == d.interval && c.deadline == d.deadline
  }

  /** Step `n` is the first, from `tick` on, at or after the beginning of slot `i`. */
  ghost predicate Reaches(c: Checkpoint, clock: nat -> real, tick: nat, i: nat, n: nat) {
    && tick <= n && Slot(c, i) as real <= clock(n)
    && forall j: nat :: tick <= j < n ==> clock(j) < Slot(c, i) as real
  }

  /** Waiting from step `tick` on, with `observed` as the time of the last probe, ends in slot `i`
      at step `n`, and the probe is completed by the end of the slot. */
  ghost predicate KeepsSlot(c: Checkpoint, clock: nat -> real, i: nat, observed: int, tick: nat, n: nat) {
    var end := Slot(c, i) + c.interval * 1000;
    && Reaches(c, clock, tick, i, n) && clock(n) < end as real
    && (forall j: nat :: tick <= j <= n ==> observed as real <= clock(j))
    && observed <= clock(n + 1).Floor <= end && Slot(c, i) <= clock(n + 1).Floor
  }

  /** The step after the turn whose wait ended at step `n`: a turn that is not the last one saves. */
  function AfterTurn(c: Checkpoint, i: nat, n: nat): nat
    requires c.interval > 0
  {
    n + if i < c.duration / c.interval then 3 else 2
  }

  /** The clock keeps slot `i` and all later ones, up to step `last`. */
  ghost predicate Keeps(c: Checkpoint, clock: nat -> real, i: nat, observed: int, tick: nat, last: nat)
    requires c.interval > 0
    decreases c.duration / c.interval + 1 - i
  {
    if i > c.duration / c.interval then last == tick && observed <= clock(last).Floor
    else
      exists n: nat ::
        KeepsSlot(c, clock, i, observed, tick, n) &&
        Keeps(c, clock, i + 1, clock(n + 1).Floor, AfterTurn(c, i, n), last)
  }

  lemma {:induction false} KeepsGoesOn(c: Checkpoint, clock: nat -> real, i: nat, observed: int, tick: nat, last: nat)
    requires c.interval > 0 && Keeps(c, clock, i, observed, tick, last)
    ensures tick <= last
    decreases c.duration / c.interval + 1 - i
  {
    if i <= c.duration / c.interval {
      var n: nat :| KeepsSlot(c, clock, i, observed, tick, n) &&
                    Keeps(c, clock, i + 1, clock(n + 1).Floor, AfterTurn(c, i, n), last);
      KeepsGoesOn(c, clock, i + 1, clock(n + 1).Floor, AfterTurn(c, i, n), last);
    }
  }

  lemma {:induction false} WaitEnds(c: Checkpoint, clock: nat -> real, life: nat, tick: nat, n: nat)
    requires KeepsSlot(c, clock, c.nextIndex, c.lastObserved, tick, n) && c.nextAt == Slot(c, c.nextIndex) && n < life
    ensures Waited(c, clock, life, tick) == (None, n + 1)
    decreases n - tick
  {
    if tick < n {
      WaitEnds(c, clock, life, tick + 1, n);
    }
  }

  /** The checkpoint after probe `c.nextIndex`, completed at `completed`. */
  ghost predicate AfterProbe(c: Checkpoint, after: Checkpoint, passed: bool, completed: int) {
    && Planned(after) && SamePlan(c, after) && after.lastObserved == completed
    && after.probes == c.probes + [Probe(c.nextIndex, passed, c.nextAt, completed)]
  }

  lemma WithProbeIsAfter(c: Checkpoint, passed: bool, completed: int, saved: Digest)
    requires Planned(c)
    ensures AfterProbe(c, WithProbe(c, passed, completed, saved), passed, completed)
  {
  }

  /** A turn takes its probe if the clock keeps the slot and the process lives that long. */
  lemma TurnTakesProbe(c: Checkpoint, files: seq<File>, clock: nat -> real, passes: nat -> bool, life: nat, tick: nat,
                       n: nat)
    requires Planned(c) && files != [] && c.nextIndex < MAX_PROBES
    requires KeepsSlot(c, clock, c.nextIndex, c.lastObserved, tick, n) && AfterTurn(c, c.nextIndex, n) <= life
    ensures var t := TurnOf(c, files, clock, passes, life, tick);
            && t.next == AfterTurn(c, c.nextIndex, n)
            && t.after.Ok? && AfterProbe(c, t.after.value, passes(c.nextIndex), clock(n + 1).Floor)
  {
    WaitEnds(c, clock, life, tick, n);
    WithProbeIsAfter(c, passes(c.nextIndex), clock(n + 1).Floor, files[|files| - 1].digest);
    assert InSlot(c, clock(n + 1).Floor);
    hide InSlot, Slot, Waited, Reaches;
  }

  /** And only then. */
  lemma TurnKeepsSlot(c: Checkpoint, files: seq<File>, clock: nat -> real, passes: nat -> bool, life: nat, tick: nat)
    returns (n: nat)
    requires Planned(c) && files != []
    requires TurnOf(c, files, clock, passes, life, tick).after.Ok?
    ensures KeepsSlot(c, clock, c.nextIndex, c.lastObserved, tick, n)
    ensures var t := TurnOf(c, files, clock, passes, life, tick);
            && t.next == AfterTurn(c, c.nextIndex, n) <= life
            && AfterProbe(c, t.after.value, passes(c.nextIndex), clock(n + 1).Floor)
  {
    WaitIsExact(c, clock, life, tick);
    n := Waited(c, clock, life, tick).1 - 1;
    WithProbeIsAfter(c, passes(c.nextIndex), clock(n + 1).Floor, files[|files| - 1].digest);
  }

  /** What is in memory when the probes are all taken, by a process that went on from `c`. */
  ghost predicate Probed(c: Checkpoint, last: Checkpoint, passes: nat -> bool) {
    && AllTaken(last) && SamePlan(c, last) && |last.probes| == last.nextIndex && c.probes <= last.probes
    && forall i :: |c.probes| <= i < |last.probes| ==> last.probes[i].passed == passes(i)
  }

  lemma ProbedOnce(c: Checkpoint, after: Checkpoint, passes: nat -> bool, completed: int)
    requires Planned(c) && AfterProbe(c, after, passes(c.nextIndex), completed) &&
             after.nextIndex > c.duration / c.interval
    requires c.nextIndex <= c.duration / c.interval
    ensures Probed(c, after, passes)
  {
  }

  lemma ProbedOnceMore(c: Checkpoint, after: Checkpoint, last: Checkpoint, passes: nat -> bool, completed: int)
    requires Planned(c) && AfterProbe(c, after, passes(c.nextIndex), completed) && Probed(after, last, passes)
    ensures Probed(c, last, passes)
  {
    assert after.probes[|c.probes|].passed == passes(|c.probes|);
    assert last.probes[|c.probes|] == after.probes[|c.probes|];
  }

  /** A clock that keeps the slots up to step `end` brings the run to its end at that step. */
  lemma {:induction false} KeptProbes(plan: Checkpoint, c: Checkpoint, files: seq<File>, clock: nat -> real,
                                      passes: nat -> bool, life: nat, tick: nat, end: nat)
    returns (last: Checkpoint, saved: seq<File>)
    requires Planned(c) && SamePlan(plan, c) && files != [] && c.nextIndex <= c.duration / c.interval < MAX_PROBES
    requires Keeps(plan, clock, c.nextIndex, c.lastObserved, tick, end) && end <= life
    ensures saved != [] && ProceedOf(c, files, clock, passes, life, tick) == FinishOf(last, saved, clock, life, end)
    ensures Probed(c, last, passes) && last.lastObserved <= clock(end).Floor
    decreases c.duration / c.interval + 1 - c.nextIndex
  {
    var i := c.nextIndex;
    var n: nat :| KeepsSlot(plan, clock, i, c.lastObserved, tick, n) &&
                  Keeps(plan, clock, i + 1, clock(n + 1).Floor, AfterTurn(plan, i, n), end);
    KeepsGoesOn(plan, clock, i + 1, clock(n + 1).Floor, AfterTurn(plan, i, n), end);
    SlotIsKept(plan, c, clock, tick, n);
    TurnTakesProbe(c, files, clock, passes, life, tick, n);
    var turn := TurnOf(c, files, clock, passes, life, tick);
    hide TurnOf, KeepsSlot, Slot, FinishOf;
    if i < c.duration / c.interval {
      last, saved := KeptProbes(plan, turn.after.value, turn.files, clock, passes, life, turn.next, end);
      ProbedOnceMore(c, turn.after.value, last, passes, clock(n + 1).Floor);
    } else {
      last, saved := turn.after.value, turn.files;
      ProbedOnce(c, last, passes, clock(n + 1).Floor);
    }
  }

  lemma KeepsOneMore(c: Checkpoint, clock: nat -> real, i: nat, observed: int, tick: nat, n: nat, next: nat, last: nat)
    requires c.interval > 0 && i <= c.duration / c.interval && KeepsSlot(c, clock, i, observed, tick, n)
    requires next == n + (if i < c.duration / c.interval then 3 else 2)
    requires Keeps(c, clock, i + 1, clock(n + 1).Floor, next, last)
    ensures Keeps(c, clock, i, observed, tick, last)
  {
    hide KeepsSlot;
  }

  lemma FinishReports(c: Checkpoint, files: seq<File>, clock: nat -> real, life: nat, tick: nat)
    requires Planned(c) && files != [] && FinishOf(c, files, clock, life, tick).result.Ok?
    ensures c.lastObserved <= clock(tick).Floor && c.deadline <= clock(tick).Floor && tick + 2 <= life &&
            c.nextIndex <= MAX_PROBES
  {
    hide Failures;
  }

  /** A run that reports has had a clock that keeps the slots. */
  lemma {:induction false} ReportedIsKept(plan: Checkpoint, c: Checkpoint, files: seq<File>, clock: nat -> real,
                                          passes: nat -> bool, life: nat, tick: nat) returns (end: nat)
    requires Planned(c) && SamePlan(plan, c) && files != [] && c.nextIndex <= c.duration / c.interval + 1
    requires ProceedOf(c, files, clock, passes, life, tick).result.Ok?
    ensures Keeps(plan, clock, c.nextIndex, c.lastObserved, tick, end)
    ensures c.duration / c.interval < MAX_PROBES && c.deadline <= clock(end).Floor && end + 2 <= life
    decreases c.duration / c.interval + 1 - c.nextIndex
  {
    hide TurnOf, KeepsSlot, Slot, FinishOf;
    if c.nextIndex <= c.duration / c.interval {
      var n := TurnKeepsSlot(c, files, clock, passes, life, tick);
      var turn := TurnOf(c, files, clock, passes, life, tick);
      SlotIsKept(plan, c, clock, tick, n);
      end := ReportedIsKept(plan, turn.after.value, turn.files, clock, passes, life, turn.next);
      hide Keeps, ProceedOf;
      KeepsOneMore(plan, clock, c.nextIndex, c.lastObserved, tick, n, turn.next, end);
    } else {
      FinishReports(c, files, clock, life, tick);
      end := tick;
    }
  }

  lemma SlotIsKept(plan: Checkpoint, c: Checkpoint, clock: nat -> real, tick: nat, n: nat)
    requires SamePlan(plan, c)
    ensures KeepsSlot(c, clock, c.nextIndex, c.lastObserved, tick, n) <==>
            KeepsSlot(plan, clock, c.nextIndex, c.lastObserved, tick, n)
  {
  }

  /** The report of a completed run. */
  ghost predicate Completed(c: Checkpoint, r: Report, passes: nat -> bool)
    requires c.interval > 0
  {
    && r.duration == c.duration && r.interval == c.interval
    && |r.probes| == c.duration / c.interval + 1 && c.probes <= r.probes
    && (forall i :: |c.probes| <= i < |r.probes| ==> r.probes[i].passed == passes(i))
    && (r.healthy <==> forall i :: 0 <= i < |r.probes| ==> r.probes[i].passed)
  }

  /** What the end of the schedule comes to, for a process that lives to see it. */
  lemma FinishIsExact(c: Checkpoint, last: Checkpoint, files: seq<File>, clock: nat -> real, passes: nat -> bool,
                      life: nat, t: nat)
    requires c.interval > 0 && c.duration / c.interval < MAX_PROBES && files != [] && Probed(c, last, passes) &&
             t + 2 <= life && last.lastObserved <= clock(t).Floor
    ensures var p := FinishOf(last, files, clock, life, t);
            if c.deadline <= clock(t).Floor then p.result.Ok? && Completed(c, p.result.value, passes)
            else p.result == Err(Shortened)
  {
    NoFailures(last.probes);
    hide Failures;
  }

  /** The clock keeps the rest of the schedule up to step `end`, and the process lives to report. */
  ghost predicate OnTime(c: Checkpoint, clock: nat -> real, tick: nat, life: nat, end: nat)
    requires c.interval > 0
  {
    Keeps(c, clock, c.nextIndex, c.lastObserved, tick, end) && end + 2 <= life
  }

  /** Exactly when a run completes, for any clock, from any point of its schedule: there are at most
      97 probes, the clock keeps every slot that is left, the reading behind the last probe is not
      before the deadline, and the process lives long enough.  The report is then healthy exactly
      if all probes pass. */
  lemma CompletesExactly(c: Checkpoint, files: seq<File>, clock: nat -> real, passes: nat -> bool, life: nat,
                         tick: nat)
    requires Planned(c) && files != [] && c.nextIndex <= c.duration / c.interval
    ensures var p := ProceedOf(c, files, clock, passes, life, tick);
            && (p.result.Ok? <==> (c.duration / c.interval < MAX_PROBES &&
                                   exists end :: OnTime(c, clock, tick, life, end) && c.deadline <= clock(end).Floor))
            && (p.result.Ok? ==> Completed(c, p.result.value, passes))
  {
    if ProceedOf(c, files, clock, passes, life, tick).result.Ok? {
      var end := ReportedIsKept(c, c, files, clock, passes, life, tick);
      assert OnTime(c, clock, tick, life, end);
    }
    hide ProceedOf, Keeps, FinishOf;
    if end :| c.duration / c.interval < MAX_PROBES && OnTime(c, clock, tick, life, end) &&
              c.deadline <= clock(end).Floor {
      var last, saved := KeptProbes(c, c, files, clock, passes, life, tick, end);
      FinishIsExact(c, last, saved, clock, passes, life, end);
    }
  }

  // --------------------------------------------------------------- punctual clocks

  /** From step `tick` on the clock never goes back. */
  ghost predicate Onward(clock: nat -> real, tick: nat) {
    forall i: nat, j: nat :: tick <= i <= j ==> clock(i) <= clock(j)
  }

  /** The clock never goes back, and the first step in each slot to come is followed by two more
      before the slot is over.  The process sleeps between an early reading and the slot for as
      long as it takes: how far the clock goes on otherwise does not matter. */
  ghost predicate Punctual(c: Checkpoint, clock: nat -> real, tick: nat)
    requires c.interval > 0
  {
    && Onward(clock, tick) && c.lastObserved as real <= clock(tick)
    && forall i: nat, n: nat :: c.nextIndex <= i <= c.duration / c.interval && Reaches(c, clock, tick, i, n) ==>
         clock(n + 2) < (Slot(c, i) + c.interval * 1000) as real
  }

  /** The first step from `tick` on with a reading of `at` or more. */
  lemma {:induction false} FirstStep(c: Checkpoint, clock: nat -> real, tick: nat, i: nat, m: nat) returns (n: nat)
    requires tick <= m && Slot(c, i) as real <= clock(m)
    ensures Reaches(c, clock, tick, i, n)
    decreases m - tick
  {
    if clock(tick) >= Slot(c, i) as real {
      n := tick;
    } else {
      n := FirstStep(c, clock, tick + 1, i, m);
    }
  }

  /** The slots of a schedule are an interval apart. */
  lemma SlotsAreApart(c: Checkpoint, i: nat)
    requires Planned(c) && i <= c.duration / c.interval
    ensures Slot(c, i) <= Slot(c, c.duration / c.interval) <= c.deadline
    ensures i < c.duration / c.interval ==> Slot(c, i + 1) == Slot(c, i) + c.interval * 1000
  {
    var n := c.duration / c.interval;
    SlotBeforeDeadline(c, i);
    SlotBeforeDeadline(c, n);
    Multiples(i, n, c.interval);
    if i < n {
      SlotBeforeDeadline(c, i + 1);
      assert (i + 1) * c.interval * 1000 == i * c.interval * 1000 + c.interval * 1000;
    }
  }

  lemma Multiples(i: nat, n: nat, step: nat)
    requires i <= n
    ensures i * step * 1000 <= n * step * 1000
  {
    var more := n - i;
    assert n * step == i * step + more * step;
  }

  lemma FloorKeeps(x: real, n: int)
    ensures n <= x.Floor <==> n as real <= x
    ensures x <= n as real ==> x.Floor <= n
  {
  }

  lemma EarlierStep(clock: nat -> real, tick: nat, i: nat, j: nat)
    requires Onward(clock, tick) && tick <= j && clock(i) < clock(j)
    ensures i < j
  {
    assert j <= i ==> clock(j) <= clock(i);
  }

  /** A punctual clock keeps a slot whose first step comes when the slot before is done with. */
  lemma PunctualSlot(c: Checkpoint, clock: nat -> real, tick: nat, i: nat, observed: int, t: nat, n: nat)
    requires Planned(c) && Punctual(c, clock, tick) && c.nextIndex <= i <= c.duration / c.interval
    requires tick <= t && observed as real <= clock(t) && (t == tick || clock(t - 1) < Slot(c, i) as real)
    requires Reaches(c, clock, t, i, n)
    ensures KeepsSlot(c, clock, i, observed, t, n) && clock(n + 2) < (Slot(c, i) + c.interval * 1000) as real
    ensures clock(n + 1).Floor <= clock(n + 2).Floor && clock(n + 1).Floor as real <= clock(n + 3)
  {
    hide Slot, Planned;
    assert Reaches(c, clock, tick, i, n);
    assert clock(n + 1) <= clock(n + 2) <= clock(n + 3);
    FloorKeeps(clock(n + 1), Slot(c, i));
    FloorKeeps(clock(n + 1), observed);
    FloorKeeps(clock(n + 1), Slot(c, i) + c.interval * 1000);
  }

  lemma {:induction false} PunctualKeeps(c: Checkpoint, clock: nat -> real, tick: nat, i: nat, observed: int, t: nat,
                                         n: nat)
    requires Planned(c) && Punctual(c, clock, tick) && c.nextIndex <= i <= c.duration / c.interval
    requires tick <= t && observed as real <= clock(t) && (t == tick || clock(t - 1) < Slot(c, i) as real)
    requires Reaches(c, clock, tick, c.duration / c.interval, n) && t <= n
    ensures Keeps(c, clock, i, observed, t, n + 2)
    decreases c.duration / c.interval - i
  {
    hide Slot, Keeps, KeepsSlot;
    SlotsAreApart(c, i);
    hide Planned;
    var k := FirstStep(c, clock, t, i, n);
    PunctualSlot(c, clock, tick, i, observed, t, k);
    if i < c.duration / c.interval {
      SlotsAreApart(c, i + 1);
      EarlierStep(clock, tick, k + 2, n);
      hide *;
      PunctualKeeps(c, clock, tick, i + 1, clock(k + 1).Floor, k + 3, n);
      KeepsOneMore(c, clock, i, observed, t, k, k + 3, n + 2);
    } else {
      assert k == n;
      AllKept(c, clock, clock(k + 1).Floor, n + 2);
      KeepsOneMore(c, clock, i, observed, t, k, k + 2, n + 2);
    }
  }

  lemma AllKept(c: Checkpoint, clock: nat -> real, observed: int, last: nat)
    requires c.interval > 0 && observed <= clock(last).Floor
    ensures Keeps(c, clock, c.duration / c.interval + 1, observed, last, last)
  {
  }

  /** With a punctual clock and at most 97 probes the run gets to its last reading, two steps behind
      the first one in the last slot, and completes exactly if that is not before the deadline;
      with a schedule of whole intervals it always does. */
  lemma PunctualRunCompletes(c: Checkpoint, files: seq<File>, clock: nat -> real, passes: nat -> bool, life: nat,
                             tick: nat, n: nat)
    requires Planned(c) && files != [] && c.nextIndex <= c.duration / c.interval < MAX_PROBES
    requires Punctual(c, clock, tick) && Reaches(c, clock, tick, c.duration / c.interval, n) && n + 4 <= life
    ensures var p := ProceedOf(c, files, clock, passes, life, tick);
            if clock(n + 2) < c.deadline as real then p.result == Err(Shortened)
            else p.result.Ok? && Completed(c, p.result.value, passes)
    ensures c.duration % c.interval == 0 ==> ProceedOf(c, files, clock, passes, life, tick).result.Ok?
  {
    PunctualKeeps(c, clock, tick, c.nextIndex, c.lastObserved, tick, n);
    FloorKeeps(clock(n + 2), c.deadline);
    WholeIntervals(c);
    assert clock(n) <= clock(n + 2);
    hide Punctual, Slot, FinishOf, ProceedOf, Keeps;
    var last, saved := KeptProbes(c, c, files, clock, passes, life, tick, n + 2);
    FinishIsExact(c, last, saved, clock, passes, life, n + 2);
  }

  lemma WholeIntervals(c: Checkpoint)
    requires Planned(c)
    ensures c.duration % c.interval == 0 ==> Slot(c, c.duration / c.interval) == c.deadline
    ensures c.duration % c.interval != 0 ==> Slot(c, c.duration / c.interval) + 1000 <= c.deadline
  {
    var n := c.duration / c.interval;
    SlotBeforeDeadline(c, n);
    assert c.duration == n * c.interval + c.duration % c.interval;
  }

  /** A schedule that is not of whole intervals is refused as shortened exactly if its last probe is
      done with before the deadline, which is a second or more behind the slot: nothing waits for it. */
  lemma RaggedScheduleIsShortened(c: Checkpoint, files: seq<File>, clock: nat -> real, passes: nat -> bool, life: nat,
                                  tick: nat, n: nat)
    requires Planned(c) && files != [] && c.nextIndex <= c.duration / c.interval < MAX_PROBES
    requires Punctual(c, clock, tick) && Reaches(c, clock, tick, c.duration / c.interval, n) && n + 4 <= life
    requires c.duration % c.interval != 0
    ensures var p := ProceedOf(c, files, clock, passes, life, tick);
            p.result == Err(Shortened) <==> clock(n + 2) < c.deadline as real
    ensures Slot(c, c.duration / c.interval) + 1000 <= c.deadline
  {
    WholeIntervals(c);
    PunctualRunCompletes(c, files, clock, passes, life, tick, n);
    hide ProceedOf, Punctual;
  }

  /** A first run in an empty directory. */
  lemma FreshRunCompletes(site: nat, attempt: nat, duration: nat, interval: nat, clock: nat -> real,
                          passes: nat -> bool, life: nat, n: nat)
    requires interval > 0 && duration % interval == 0 && duration / interval < MAX_PROBES
    requires var first := First(site, attempt, duration, interval, clock(1).Floor);
             Punctual(first, clock, 3) && Reaches(first, clock, 3, duration / interval, n) && n + 4 <= life
    ensures var first := First(site, attempt, duration, interval, clock(1).Floor);
            var p := ProceedOf(first, [FileFor(first)], clock, passes, life, 3);
            && p.result.Ok? && |p.result.value.probes| == duration / interval + 1
            && (p.result.value.healthy <==> forall i :: 0 <= i <= duration / interval ==> passes(i))
  {
    var first := First(site, attempt, duration, interval, clock(1).Floor);
    assert Slot(first, 0) == first.started;
    hide Slot;
    PunctualRunCompletes(first, [FileFor(first)], clock, passes, life, 3, n);
    hide ProceedOf, FileFor, Punctual;
  }

  /** What is saved can be gone on with. */
  lemma GrownIsPlanned(tip: Checkpoint, attempt: nat)
    requires Grown(tip) && tip.state.Incomplete?
    ensures Planned(tip.(attempt := attempt)) && tip.nextIndex <= tip.duration / tip.interval
  {
    var c := tip.(attempt := attempt);
    assert c.nextAt == Slot(c, c.nextIndex);
  }

  /** A run that resumes in time, wherever the run before was killed. */
  lemma ResumedRunCompletes(files: seq<File>, attempt: nat, clock: nat -> real, passes: nat -> bool, life: nat, n: nat)
    requires files != [] && SavedTo(files, files[|files| - 1].body) && files[|files| - 1].body.state.Incomplete?
    requires var c := files[|files| - 1].body.(attempt := attempt);
             && c.duration % c.interval == 0 && c.duration / c.interval < MAX_PROBES
             && Punctual(c, clock, |files| + 1) && Reaches(c, clock, |files| + 1, c.duration / c.interval, n)
             && n + 4 <= life
    ensures var c := files[|files| - 1].body.(attempt := attempt);
            var p := ProceedOf(c, files, clock, passes, life, |files| + 1);
            p.result.Ok? && Completed(c, p.result.value, passes)
  {
    var tip := files[|files| - 1].body;
    GrownIsPlanned(tip, attempt);
    PunctualRunCompletes(tip.(attempt := attempt), files, clock, passes, life, |files| + 1, n);
    hide ProceedOf, Punctual;
  }

  // ---------------------------------------------------- clocks that are punctual

  /** The clock goes on by at most `delta` from one step to the next: every sleep returns early. */
  ghost predicate Steady(clock: nat -> real, delta: real) {
    forall n: nat :: clock(n) <= clock(n + 1) <= clock(n) + delta
  }

  lemma {:induction false} SteadyIsOnward(clock: nat -> real, delta: real, i: nat, j: nat)
    requires Steady(clock, delta) && i <= j
    ensures clock(i) <= clock(j)
    decreases j - i
  {
    if i < j {
      SteadyIsOnward(clock, delta, i, j - 1);
    }
  }

  /** A clock that is read often is punctual, when the next slot began no more than `slack` before. */
  lemma SteadyIsPunctual(c: Checkpoint, clock: nat -> real, tick: nat, delta: real, slack: real)
    requires Planned(c) && c.nextIndex <= c.duration / c.interval && Steady(clock, delta)
    requires 0.0 <= delta <= slack && slack + 3.0 * delta <= (c.interval * 1000) as real
    requires c.lastObserved as real <= clock(tick) < c.nextAt as real + slack
    ensures Punctual(c, clock, tick)
  {
    forall i: nat, j: nat | tick <= i <= j
      ensures clock(i) <= clock(j)
    {
      SteadyIsOnward(clock, delta, i, j);
    }
    forall i: nat, n: nat | c.nextIndex <= i <= c.duration / c.interval && Reaches(c, clock, tick, i, n)
      ensures clock(n + 2) < (Slot(c, i) + c.interval * 1000) as real
    {
      SteadySlot(c, clock, tick, i, n, delta, slack);
    }
    hide Slot, Planned, Reaches, Steady;
  }

  lemma SteadySlot(c: Checkpoint, clock: nat -> real, tick: nat, i: nat, n: nat, delta: real, slack: real)
    requires Planned(c) && c.nextIndex <= i <= c.duration / c.interval && Steady(clock, delta)
    requires 0.0 <= delta <= slack && slack + 3.0 * delta <= (c.interval * 1000) as real
    requires clock(tick) < c.nextAt as real + slack && Reaches(c, clock, tick, i, n)
    ensures clock(n + 2) < (Slot(c, i) + c.interval * 1000) as real
  {
    assert clock(n + 1) <= clock(n) + delta && clock(n + 2) <= clock(n + 1) + delta;
    if n > tick {
      assert clock(n - 1) < Slot(c, i) as real;
      assert clock((n - 1) + 1) <= clock(n - 1) + delta;
    } else {
      SlotsGrow(c, c.nextIndex, i);
    }
  }

  lemma {:induction false} SlotsGrow(c: Checkpoint, i: nat, j: nat)
    requires Planned(c) && i <= j <= c.duration / c.interval
    ensures Slot(c, i) <= Slot(c, j)
    decreases j - i
  {
    if i < j {
      SlotsAreApart(c, i);
      hide Slot;
      SlotsGrow(c, i + 1, j);
    }
  }

  /** The reading at step `n` of a first run that sleeps exactly to each slot and takes `work`
      milliseconds for every other step; a slot takes four of them. */
  function Slept(started: int, interval: nat, work: nat, n: nat): int {
    if n < 3 then started else started + (n - 3) / 4 * (interval * 1000) + (n - 3) % 4 * work
  }

  lemma SleptOnward(started: int, interval: nat, work: nat, i: nat, j: nat)
    requires 3 * work < interval * 1000 && i <= j
    ensures Slept(started, interval, work, i) <= Slept(started, interval, work, j)
  {
    if 3 <= i {
      var p, q := (i - 3) / 4, (j - 3) / 4;
      Scaled(p, q, interval * 1000);
      Scaled((i - 3) % 4, 3, work);
      Scaled(0, (j - 3) % 4, work);
      if p == q {
        Scaled((i - 3) % 4, (j - 3) % 4, work);
      }
    } else if 3 <= j {
      Scaled(0, (j - 3) / 4, interval * 1000);
      Scaled(0, (j - 3) % 4, work);
    }
  }

  lemma Scaled(p: nat, q: nat, step: nat)
    requires p <= q
    ensures p * step <= q * step
    ensures p < q ==> p * step + step <= q * step
  {
    var more := q - p;
    assert q * step == p * step + more * step;
    assert more > 0 ==> more * step >= step;
  }

  function SleepingClock(started: int, interval: nat, work: nat): nat -> real {
    (n: nat) => Slept(started, interval, work, n) as real
  }

  lemma SleptBefore(started: int, interval: nat, work: nat, i: nat, j: nat)
    requires 3 * work < interval * 1000 && 3 <= j < 3 + 4 * i
    ensures Slept(started, interval, work, j) < started + i * (interval * 1000)
  {
    Scaled((j - 3) / 4, i, interval * 1000);
    Scaled((j - 3) % 4, 3, work);
  }

  lemma SleptReaches(c: Checkpoint, i: nat, n: nat, work: nat)
    requires Planned(c) && i <= c.duration / c.interval && 3 * work < c.interval * 1000
    ensures Reaches(c, SleepingClock(c.started, c.interval, work), 3, i, n) <==> n == 3 + 4 * i
  {
    SlotBeforeDeadline(c, i);
    assert i * c.interval * 1000 == i * (c.interval * 1000);
    SleptAt(c.started, c.interval, work, i);
    var clock := SleepingClock(c.started, c.interval, work);
    assert clock(3 + 4 * i) == Slot(c, i) as real;
    hide Slot, Planned, Slept;
    if 3 <= n <= 3 + 4 * i {
      forall j: nat | 3 <= j < 3 + 4 * i
        ensures clock(j) < Slot(c, i) as real
      {
        SleptBefore(c.started, c.interval, work, i, j);
      }
    }
  }

  lemma SleptAt(started: int, interval: nat, work: nat, i: nat)
    ensures Slept(started, interval, work, 3 + 4 * i) == started + i * (interval * 1000)
    ensures Slept(started, interval, work, 3 + 4 * i + 2) == started + i * (interval * 1000) + 2 * work
  {
    assert 4 * i / 4 == i && 4 * i % 4 == 0 && (4 * i + 2) / 4 == i && (4 * i + 2) % 4 == 2;
  }

  lemma SleeperIsPunctual(first: Checkpoint, work: nat)
    requires Planned(first) && first.nextIndex == 0 && first.lastObserved == first.started
    requires 3 * work < first.interval * 1000
    ensures Punctual(first, SleepingClock(first.started, first.interval, work), 3)
  {
    var clock := SleepingClock(first.started, first.interval, work);
    forall i: nat, j: nat | 3 <= i <= j
      ensures clock(i) <= clock(j)
    {
      SleptOnward(first.started, first.interval, work, i, j);
    }
    SleptAt(first.started, first.interval, work, 0);
    forall i: nat, n: nat | i <= first.duration / first.interval && Reaches(first, clock, 3, i, n)
      ensures clock(n + 2) < (Slot(first, i) + first.interval * 1000) as real
    {
      SleptReaches(first, i, n, work);
      SleptAt(first.started, first.interval, work, i);
      SlotBeforeDeadline(first, i);
      assert i * first.interval * 1000 == i * (first.interval * 1000);
      hide Slept, Slot;
    }
    hide Slept, Slot, Reaches, Planned;
  }

  /** A first run that sleeps through to every slot completes. */
  lemma SleepingRunCompletes(site: nat, attempt: nat, duration: nat, interval: nat, started: int, work: nat,
                             passes: nat -> bool, life: nat)
    requires interval > 0 && duration % interval == 0 && duration / interval < MAX_PROBES
    requires 3 * work < interval * 1000 && 4 * (duration / interval) + 7 <= life
    ensures var clock := SleepingClock(started, interval, work);
            var first := First(site, attempt, duration, interval, started);
            && Punctual(first, clock, 3)
            && var p := ProceedOf(first, [FileFor(first)], clock, passes, life, 3);
               && p.result.Ok? && |p.result.value.probes| == duration / interval + 1
               && (p.result.value.healthy <==> forall i :: 0 <= i <= duration / interval ==> passes(i))
  {
    var clock, first := SleepingClock(started, interval, work), First(site, attempt, duration, interval, started);
    assert clock(1) == started as real && clock(1).Floor == started;
    assert Slot(first, 0) == started;
    SleeperIsPunctual(first, work);
    var last := 3 + 4 * (duration / interval);
    SleptReaches(first, duration / interval, last, work);
    hide Slept, Slot, Punctual, ProceedOf, FileFor, SleepingClock, Reaches;
    FreshRunCompletes(site, attempt, duration, interval, clock, passes, life, last);
  }

  // ------------------------------------------------------------ what is reported

  /** A checkpoint in memory: well formed, but for how many probes may be written. */
  ghost predicate OnPlan(c: Checkpoint) {
    && c.attempt >= 1 && Planned(c) && c.lastObserved == LastCompleted(c)
    && forall i :: 0 <= i < |c.probes| ==> ProbeOk(c, i)
  }

  lemma ProbeStaysOnPlan(c: Checkpoint, passed: bool, completed: int, saved: Digest)
    requires OnPlan(c) && InSlot(c, completed)
    ensures OnPlan(WithProbe(c, passed, completed, saved))
  {
    var after := WithProbe(c, passed, completed, saved);
    forall i | 0 <= i < |after.probes|
      ensures ProbeOk(after, i)
    {
      if i < |c.probes| {
        assert ProbeOk(c, i);
      }
    }
  }

  lemma FinishTellsTheTruth(c: Checkpoint, files: seq<File>, clock: nat -> real, life: nat, tick: nat)
    requires OnPlan(c) && files != [] && c.nextIndex == c.duration / c.interval + 1
    ensures var p := FinishOf(c, files, clock, life, tick);
            p.result.Ok? ==>
              Truthful(p.result.value) && p.result.value.duration == c.duration && p.result.value.interval == c.interval
  {
    var last := TerminalOf(c, files);
    forall i | 0 <= i < |last.probes|
      ensures ProbeOk(last, i)
    {
      assert ProbeOk(c, i);
    }
    if FinishOf(c, files, clock, life, tick).result.Ok? {
      ReportIsTruthful(last, clock(tick).Floor);
    }
    hide Truthful, Failures, ProbeOk, Slot;
  }

  /** From any well-formed checkpoint on, a report tells the truth, and what schedule it is of. */
  lemma {:induction false} ReportTellsTheTruth(c: Checkpoint, files: seq<File>, clock: nat -> real,
                                               passes: nat -> bool, life: nat, tick: nat)
    requires OnPlan(c) && files != [] && c.nextIndex <= c.duration / c.interval + 1
    ensures var p := ProceedOf(c, files, clock, passes, life, tick);
            p.result.Ok? ==>
              Truthful(p.result.value) && p.result.value.duration == c.duration && p.result.value.interval == c.interval
    decreases c.duration / c.interval + 1 - c.nextIndex
  {
    if c.nextIndex <= c.duration / c.interval {
      var t := TurnOf(c, files, clock, passes, life, tick);
      if t.after.Ok? {
        var completed := clock(Waited(c, clock, life, tick).1).Floor;
        ProbeStaysOnPlan(c, passes(c.nextIndex), completed, files[|files| - 1].digest);
        hide TurnOf, OnPlan, Truthful;
        ReportTellsTheTruth(t.after.value, t.files, clock, passes, life, t.next);
      }
    } else {
      FinishTellsTheTruth(c, files, clock, life, tick);
      hide FinishOf, Truthful;
    }
  }
}
