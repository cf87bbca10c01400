/**
 The canary's durable checkpoints: content-addressed files, each naming the digest of the
 one before.  The validator sees them as a bag of files and has to find the chain again.

 Times are milliseconds; stored times are whole, clock readings are real.  A digest is
 modelled by the checkpoint it was computed from.
 */
module CanaryChain {
  import opened Options

  datatype Probe = Probe(index: nat, passed: bool, scheduled: int, completed: int)

  datatype Lifecycle = Incomplete | FailedRun | TerminalIssued

  datatype Digest = Genesis | Hash(body: Checkpoint)

  /** `site` stands for every part of the binding but the attempt number. */
  datatype Checkpoint = Checkpoint(
    site: nat,
    attempt: nat,
    state: Lifecycle,
    duration: nat,
    interval: nat,
    started: int,
    deadline: int,
    nextIndex: nat,
    nextAt: int,
    lastObserved: int,
    probes: seq<Probe>,
    prior: Digest)

  /** A file: its two-part name, the checkpoint, and the two digests stored with it. */
  datatype File = File(nameIndex: nat, nameDigest: Digest, body: Checkpoint, history: seq<Probe>, digest: Digest)

  const MAX_PROBES := 97

  function Min(a: int, b: int): int {
    if a < b then a else b
  }

  /** When probe `i` is due. */
  function Slot(c: Checkpoint, i: nat): int {
    Min(c.started + i * c.interval * 1000, c.deadline)
  }

  /** The time of the last completed probe, or the start. */
  function LastCompleted(c: Checkpoint): int {
    if c.probes == [] then c.started else c.probes[|c.probes| - 1].completed
  }

  /** Probe `i` ran in its slot, and no earlier than the one before completed. */
  predicate ProbeOk(c: Checkpoint, i: nat)
    requires i < |c.probes|
  {
    var p := c.probes[i];
    && p.index == i
    && p.scheduled == Slot(c, i) <= p.completed <= p.scheduled + c.interval * 1000
    && (if i == 0 then c.started else c.probes[i - 1].completed) <= p.completed
  }

  ghost predicate ProbesInOrder(c: Checkpoint) {
    |c.probes| == c.nextIndex <= MAX_PROBES && forall i :: 0 <= i < |c.probes| ==> ProbeOk(c, i)
  }

  /** What a checkpoint must say about itself, apart from the clock. */
  ghost predicate WellFormed(c: Checkpoint, duration: nat, interval: nat)
    requires interval > 0
  {
    && c.attempt >= 1
    && c.duration == duration && c.interval == interval
    && c.deadline == c.started + duration * 1000
    && c.nextAt == Slot(c, c.nextIndex)
    && ProbesInOrder(c)
    && c.lastObserved == LastCompleted(c)
    && (!c.state.Incomplete? ==> c.nextIndex == duration / interval + 1)
  }

  ghost predicate Sealed(f: File) {
    f.history == f.body.probes && f.digest == Hash(f.body)
  }

  ghost predicate Fresh(c: Checkpoint, now: real)
    requires c.interval > 0
  {
    c.state.Incomplete? ==>
      && (c.nextIndex <= c.duration / c.interval ==> now < (c.nextAt + c.interval * 1000) as real)
      && now <= c.deadline as real
  }

  datatype LoadError = TamperedProbes | TamperedSchedule | TamperedDigest | ClockRollback | Stale | WrongConfiguration

  /** The loop over the recorded probes. */
  method ProbesAreInOrder(c: Checkpoint) returns (ok: bool)
    ensures ok <==> ProbesInOrder(c)
  {
    if |c.probes| > MAX_PROBES || |c.probes| != c.nextIndex { return false; }
    var previous := c.started;
    for i := 0 to |c.probes|
      invariant previous == if i == 0 then c.started else c.probes[i - 1].completed
      invariant forall k :: 0 <= k < i ==> ProbeOk(c, k)
    {
      var p := c.probes[i];
      var due := Slot(c, i);
      if p.index != i || p.scheduled > p.completed || p.scheduled != due ||
         p.completed < previous || p.completed > p.scheduled + c.interval * 1000 {
        assert !ProbeOk(c, i);
        return false;
      }
      previous := p.completed;
    }
    ok := true;
  }

  /** Loading one file at clock reading `now`, with or without the freshness check. */
  method LoadCheckpoint(f: File, duration: nat, interval: nat, now: real, freshness: bool)
    returns (error: Option<LoadError>)
    requires interval > 0
    ensures error.None? <==>
              WellFormed(f.body, duration, interval) && Sealed(f) && f.body.lastObserved as real <= now &&
              (freshness ==> Fresh(f.body, now))
  {
    var c := f.body;
    if c.attempt < 1 || c.duration != duration || c.interval != interval { return Some(WrongConfiguration); }
    if c.deadline != c.started + duration * 1000 || c.nextAt != Slot(c, c.nextIndex) {
      return Some(TamperedSchedule);
    }
    var ordered := ProbesAreInOrder(c);
    if !ordered { return Some(TamperedProbes); }
    if f.history != c.probes || f.digest != Hash(c) { return Some(TamperedDigest); }
    if now < c.lastObserved as real { return Some(ClockRollback); }
    if c.lastObserved != LastCompleted(c) { return Some(TamperedProbes); }
    if c.state.Incomplete? {
      if freshness {
        if c.nextIndex <= duration / interval && now >= (c.nextAt + interval * 1000) as real { return Some(Stale); }
        if now > c.deadline as real { return Some(Stale); }
      }
    } else if c.nextIndex != duration / interval + 1 {
      return Some(TamperedSchedule);
    }
    error := None;
  }

  // -------------------------------------------------------------------- chains

  /** The checkpoints that lead to `c`, oldest first. */
  ghost function PathTo(c: Checkpoint): seq<Checkpoint> {
    (if c.prior.Genesis? then [] else PathTo(c.prior.body)) + [c]
  }

  /** A terminal checkpoint has no successor, indices step by one (a terminal one may
      repeat its index), and the attempt stays or steps by one. */
  predicate LinkOk(before: Checkpoint, after: Checkpoint) {
    && before.state.Incomplete?
    && (after.nextIndex == before.nextIndex + 1 || (after.nextIndex == before.nextIndex && !after.state.Incomplete?))
    && before.attempt <= after.attempt <= before.attempt + 1
  }

  ghost predicate Linked(c: Checkpoint) {
    c.prior.Genesis? || (LinkOk(c.prior.body, c) && Linked(c.prior.body))
  }

  ghost predicate NoDuplicates(files: seq<File>, n: nat)
    requires n <= |files|
  {
    forall i, j :: 0 <= i < j < n ==> files[i].body != files[j].body
  }

  ghost predicate FileOk(f: File, site: nat, duration: nat, interval: nat)
    requires interval > 0
  {
    && WellFormed(f.body, duration, interval) && Sealed(f)
    && f.nameIndex == f.body.nextIndex && f.nameDigest == f.digest
    && f.body.site == site
  }

  /** The files are one chain from genesis to `tip`, every file on it exactly once. */
  ghost predicate ChainTo(files: seq<File>, site: nat, duration: nat, interval: nat, tip: Checkpoint)
    requires interval > 0
  {
    && (forall f :: f in files ==> FileOk(f, site, duration, interval))
    && NoDuplicates(files, |files|)
    && (forall c :: c in PathTo(tip) <==> exists i :: 0 <= i < |files| && files[i].body == c)
    && Linked(tip)
  }

  /** What the validator should accept; `clock(i)` is its reading while it loads file `i`,
      and `clock(|files|)` the one at the final check of the tip. */
  ghost predicate Acceptable(files: seq<File>, site: nat, duration: nat, interval: nat, clock: nat -> real,
                             tip: Checkpoint)
    requires interval > 0
  {
    && ChainTo(files, site, duration, interval, tip)
    && (forall i :: 0 <= i < |files| ==> files[i].body.lastObserved as real <= clock(i))
    && tip.interval > 0 && tip.lastObserved as real <= clock(|files|) && Fresh(tip, clock(|files|))
  }

  lemma {:induction false} TipIsLast(c: Checkpoint)
    ensures c in PathTo(c) && |PathTo(c)| > 0 && PathTo(c)[|PathTo(c)| - 1] == c
  {
  }

  lemma {:induction false} PathIsClosed(c: Checkpoint, b: Checkpoint)
    requires b in PathTo(c)
    ensures forall x :: x in PathTo(b) ==> x in PathTo(c)
    ensures !b.prior.Genesis? ==> b.prior.body in PathTo(c)
    ensures Linked(c) ==> Linked(b)
    decreases c
  {
    if b != c {
      PathIsClosed(c.prior.body, b);
    } else if !b.prior.Genesis? {
      TipIsLast(b.prior.body);
    }
  }

  /** On a path every checkpoint but the tip has its successor, and a successor is unique. */
  lemma {:induction false} SuccessorOnPath(c: Checkpoint, b: Checkpoint)
    requires b in PathTo(c) && b != c
    ensures exists a :: a in PathTo(c) && a.prior == Hash(b)
    decreases c
  {
    if c.prior == Hash(b) {
      TipIsLast(c);
    } else {
      SuccessorOnPath(c.prior.body, b);
      var a :| a in PathTo(c.prior.body) && a.prior == Hash(b);
      assert a in PathTo(c);
    }
  }

  lemma {:induction false} OneSuccessor(c: Checkpoint, a: Checkpoint, b: Checkpoint)
    requires a in PathTo(c) && b in PathTo(c) && a.prior == b.prior
    ensures a == b
    decreases c
  {
    if a == c && b != c {
      NoReturn(c, b);
    } else if b == c && a != c {
      NoReturn(c, a);
    } else if a != c {
      OneSuccessor(c.prior.body, a, b);
    }
  }

  /** A checkpoint below the tip has another prior than the tip. */
  lemma {:induction false} NoReturn(c: Checkpoint, b: Checkpoint)
    requires b in PathTo(c) && b != c
    ensures b.prior != c.prior
  {
    PathGetsSmaller(c.prior.body, b);
  }

  /** Checkpoints on a path are no longer than its tip, measured by their own paths. */
  lemma {:induction false} PathGetsSmaller(c: Checkpoint, b: Checkpoint)
    requires b in PathTo(c)
    ensures |PathTo(b)| <= |PathTo(c)|
    decreases c
  {
    if b != c {
      PathGetsSmaller(c.prior.body, b);
    }
  }

  /** Every path starts at a checkpoint whose prior is genesis. */
  lemma {:induction false} PathStartsAtGenesis(c: Checkpoint)
    ensures PathTo(c)[0].prior.Genesis? && PathTo(c)[0] in PathTo(c)
  {
    if !c.prior.Genesis? {
      PathStartsAtGenesis(c.prior.body);
    }
  }

  lemma SamePathSameTip(tip: Checkpoint, other: Checkpoint)
    requires forall c :: c in PathTo(tip) <==> c in PathTo(other)
    ensures tip == other
  {
    TipIsLast(tip);
    TipIsLast(other);
    assert tip in PathTo(other) && other in PathTo(tip);
    if tip != other {
      PathGetsSmaller(tip.prior.body, other);
      PathGetsSmaller(other.prior.body, tip);
    }
  }
}
