/**
 The two independent judges of a canary report: the issuer's production contract, and the
 schedule checks of the join.  Both accept exactly the healthy reports of production runs, and
 the job issues evidence exactly for those.
 */
module CanaryReport {
  import opened CanaryChain
  import opened Canary
  import opened CanaryCompletion
  import opened Options

  const PRODUCTION_DURATION := 86400
  const PRODUCTION_INTERVAL := 900

  /** What the issuer demands. */
  ghost predicate Issuable(r: Report) {
    && r.duration == PRODUCTION_DURATION && r.interval == PRODUCTION_INTERVAL
    && r.observed >= PRODUCTION_DURATION * 1000
    && r.failures == 0 && r.healthy
    && |r.probes| == 97
    && forall i :: 0 <= i < 97 ==> r.probes[i].index == i && r.probes[i].passed
  }

  /** The issuer's contract. */
  method RequireProductionContract(r: Report, duration: nat, interval: nat) returns (ok: bool)
    ensures ok <==> duration == PRODUCTION_DURATION && interval == PRODUCTION_INTERVAL && Issuable(r)
  {
    if duration != PRODUCTION_DURATION || r.duration != PRODUCTION_DURATION { return false; }
    if interval != PRODUCTION_INTERVAL || r.interval != PRODUCTION_INTERVAL { return false; }
    if r.observed < PRODUCTION_DURATION * 1000 { return false; }
    if r.failures != 0 || !r.healthy { return false; }
    if |r.probes| != 97 { return false; }
    for i := 0 to |r.probes|
      invariant forall k :: 0 <= k < i ==> r.probes[k].index == k && r.probes[k].passed
    {
      if r.probes[i].index != i || !r.probes[i].passed { return false; }
    }
    ok := true;
  }

  /** What the join demands of a report's schedule. */
  ghost predicate Joinable(r: Report) {
    && r.healthy && r.failures == 0
    && r.duration == PRODUCTION_DURATION && r.interval == PRODUCTION_INTERVAL
    && r.observed >= PRODUCTION_DURATION * 1000
    && r.started <= r.finished && r.observed == r.finished - r.started
    && |r.probes| == PRODUCTION_DURATION / PRODUCTION_INTERVAL + 1
    && forall i :: 0 <= i < |r.probes| ==> OnSchedule(r.probes, r.started, PRODUCTION_INTERVAL, i) && r.probes[i].passed
  }

  /** The schedule checks of the join. */
  method ValidateCanaryPayload(r: Report) returns (ok: bool)
    ensures ok <==> Joinable(r)
  {
    if !r.healthy || r.failures != 0 || r.duration != PRODUCTION_DURATION || r.interval != PRODUCTION_INTERVAL {
      return false;
    }
    if r.observed < PRODUCTION_DURATION * 1000 { return false; }
    if r.finished < r.started || r.observed != r.finished - r.started { return false; }
    if |r.probes| != PRODUCTION_DURATION / PRODUCTION_INTERVAL + 1 { return false; }
    var previous := r.started;
    for i := 0 to |r.probes|
      invariant previous == if i == 0 then r.started else r.probes[i - 1].completed
      invariant forall k :: 0 <= k < i ==> OnSchedule(r.probes, r.started, PRODUCTION_INTERVAL, k) && r.probes[k].passed
    {
      var p := r.probes[i];
      if p.index != i || !p.passed || p.scheduled != r.started + i * PRODUCTION_INTERVAL * 1000 ||
         p.completed < previous || p.completed < p.scheduled || p.completed > p.scheduled + PRODUCTION_INTERVAL * 1000 {
        return false;
      }
      previous := p.completed;
    }
    ok := true;
  }

  /** A report of a production run passes both judges exactly when it is healthy; it then
      holds 97 probes, the first at the start and the last 24 hours later. */
  lemma HealthyReportPassesBoth(r: Report)
    requires Truthful(r) && r.duration == PRODUCTION_DURATION && r.interval == PRODUCTION_INTERVAL
    ensures Issuable(r) <==> r.healthy
    ensures Joinable(r) <==> r.healthy
    ensures |r.probes| == 97
    ensures r.probes[0].scheduled == r.started && r.probes[96].scheduled == r.started + 86400 * 1000 <= r.finished
  {
    forall i | 0 <= i < |r.probes|
      ensures r.probes[i].index == i && r.probes[i].scheduled == r.started + i * 900 * 1000
    {
      assert OnSchedule(r.probes, r.started, r.interval, i);
    }
  }

  /** The join repeats the issuer's contract: what it lets through was issuable. */
  lemma JoinableIsIssuable(r: Report)
    requires Joinable(r)
    ensures Issuable(r)
  {
    forall i | 0 <= i < 97
      ensures r.probes[i].index == i && r.probes[i].passed
    {
      assert OnSchedule(r.probes, r.started, PRODUCTION_INTERVAL, i);
    }
  }

  // ------------------------------------------------------------- from run to judge

  /** From any saved point of a production run on: what it reports is what happened, so both
      judges accept the report exactly when it is healthy. */
  lemma ProductionRunIsJudged(tip: Checkpoint, attempt: nat, files: seq<File>, clock: nat -> real,
                              passes: nat -> bool, life: nat, tick: nat)
    requires Grown(tip) && tip.state.Incomplete? && attempt >= 1 && files != []
    requires tip.duration == PRODUCTION_DURATION && tip.interval == PRODUCTION_INTERVAL
    ensures var p := ProceedOf(tip.(attempt := attempt), files, clock, passes, life, tick);
            p.result.Ok? ==>
              && (Issuable(p.result.value) <==> p.result.value.healthy)
              && (Joinable(p.result.value) <==> p.result.value.healthy)
              && |p.result.value.probes| == 97
              && p.result.value.finished - p.result.value.started >= PRODUCTION_DURATION * 1000
  {
    var c := tip.(attempt := attempt);
    GrownIsOnPlan(tip, attempt);
    ReportTellsTheTruth(c, files, clock, passes, life, tick);
    var p := ProceedOf(c, files, clock, passes, life, tick);
    hide ProceedOf, Issuable, Joinable;
    if p.result.Ok? {
      HealthyReportPassesBoth(p.result.value);
    }
    hide Truthful;
  }

  lemma GrownIsOnPlan(tip: Checkpoint, attempt: nat)
    requires Grown(tip) && tip.state.Incomplete? && attempt >= 1
    ensures OnPlan(tip.(attempt := attempt)) && tip.nextIndex <= tip.duration / tip.interval
  {
    var c := tip.(attempt := attempt);
    forall i | 0 <= i < |c.probes|
      ensures ProbeOk(c, i)
    {
      assert ProbeOk(tip, i);
    }
  }

  /** A first production run whose clock is punctual passes both judges exactly if all its
      97 probes pass. */
  lemma PunctualProductionRunPasses(site: nat, attempt: nat, clock: nat -> real, passes: nat -> bool, life: nat, n: nat)
    requires attempt >= 1
    requires var first := First(site, attempt, PRODUCTION_DURATION, PRODUCTION_INTERVAL, clock(1).Floor);
             Punctual(first, clock, 3) && Reaches(first, clock, 3, 96, n) && n + 4 <= life
    ensures var first := First(site, attempt, PRODUCTION_DURATION, PRODUCTION_INTERVAL, clock(1).Floor);
            var p := ProceedOf(first, [FileFor(first)], clock, passes, life, 3);
            && p.result.Ok?
            && (Issuable(p.result.value) <==> forall i :: 0 <= i < 97 ==> passes(i))
            && (Joinable(p.result.value) <==> forall i :: 0 <= i < 97 ==> passes(i))
  {
    var first := First(site, attempt, PRODUCTION_DURATION, PRODUCTION_INTERVAL, clock(1).Floor);
    FirstIsGrown(site, attempt, PRODUCTION_DURATION, PRODUCTION_INTERVAL, clock(1).Floor);
    assert first.(attempt := attempt) == first;
    hide Punctual, Reaches, ProceedOf, Issuable, Joinable, FileFor, Grown;
    FreshRunCompletes(site, attempt, PRODUCTION_DURATION, PRODUCTION_INTERVAL, clock, passes, life, n);
    ProductionRunIsJudged(first, attempt, [FileFor(first)], clock, passes, life, 3);
  }

  /** What the judges make of the report of a run of any schedule. */
  lemma JudgedAlike(r: Report)
    requires Truthful(r)
    ensures Issuable(r) <==> r.duration == PRODUCTION_DURATION && r.interval == PRODUCTION_INTERVAL && r.healthy
    ensures Joinable(r) <==> Issuable(r)
  {
    if r.duration == PRODUCTION_DURATION && r.interval == PRODUCTION_INTERVAL {
      HealthyReportPassesBoth(r);
    }
  }

  /** The job: one run, and the evidence issued on its report. */
  method RunAndIssue(dir: StateDirectory, site: nat, attempt: nat, duration: nat, interval: nat, clock: nat -> real,
                     passes: nat -> bool, life: nat)
    returns (r: Result<Report, Failure>, issued: bool)
    requires dir.Valid() && interval > 0
    modifies dir
    ensures dir.Valid() && dir.Appended(old(dir.files), attempt)
    ensures r.Ok? ==> Truthful(r.value) && dir.Issued(r.value)
    ensures issued <==> r.Ok? && duration == PRODUCTION_DURATION && interval == PRODUCTION_INTERVAL && r.value.healthy
    ensures issued ==> Issuable(r.value) && Joinable(r.value)
  {
    hide *;
    var steps;
    r, steps := dir.Run(site, attempt, duration, interval, clock, passes, life);
    issued := false;
    if r.Ok? {
      dir.IssuedIsTruthful(r.value);
      JudgedAlike(r.value);
      issued := RequireProductionContract(r.value, duration, interval);
    }
  }
}
