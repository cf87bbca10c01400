/**
 The remote mirror: one worker drains the outbox while publishers go on activating.  Every
 push may fail, which ends the worker's run, and the worker may stop between any two steps.
 */
module Mirror {
  import opened Options
  import opened Publication
  import opened PublicationSafety

  datatype Remote = Remote(refs: set<GenId>, release: Option<Release>)

  /** Where the worker is in handling an event, or in the reconciliation without events. */
  datatype Stage = PushGeneration | ReadRelease | PushRelease(release: Option<Release>) | Mark

  datatype Worker =
    | Resting
    | Working(pending: seq<nat>, stage: Stage)
    | Reconciling(stage: Stage)

  datatype System = System(pub: State, remote: Remote, worker: Worker)

  const START := System(INITIAL, Remote({}, None), Resting)

  /** The unprocessed events in order of their numbers. */
  function Pending(outbox: seq<Event>, from: nat): seq<nat>
    requires from <= |outbox|
    decreases |outbox| - from
  {
    if from == |outbox| then []
    else if outbox[from].processed then Pending(outbox, from + 1)
    else [from] + Pending(outbox, from + 1)
  }

  datatype Step =
    | Publish(step: Publication.Step)
    | Wake                       // process_outbox starts and reads the pending events
    | Go(ok: bool)               // the worker's next statement; a push obeys `ok`
    | Stop                       // the worker stops

  function Apply(y: System, step: Step): System {
    match step
    case Publish(s) => y.(pub := Publication.Apply(y.pub, s))
    case Stop => y.(worker := Resting)
    case Wake =>
      if !y.worker.Resting? then y
      else
        var pending := Pending(y.pub.db.outbox, 0);
        y.(worker := if pending == [] then Reconciling(ReadRelease) else Working(pending, PushGeneration))
    case Go(ok) =>
      match y.worker
      case Resting => y
      case Reconciling(stage) => GoOn(y, stage, ok)
      case Working(pending, stage) =>
        if pending == [] || pending[0] >= |y.pub.db.outbox| then y.(worker := Resting)
        else if stage == PushGeneration then
          if ok then
            y.(remote := y.remote.(refs := y.remote.refs + {y.pub.db.outbox[pending[0]].gen}),
               worker := Working(pending, ReadRelease))
          else y.(worker := Resting)
        else if stage == Mark then
          y.(pub := MarkProcessed(y.pub, pending[0]),
             worker := if |pending| == 1 then Resting else Working(pending[1..], PushGeneration))
        else GoOn(y, stage, ok)
  }

  /** Materializing the current release and force-pushing it. */
  function GoOn(y: System, stage: Stage, ok: bool): System {
    match stage
    case ReadRelease => y.(worker := To(y.worker, PushRelease(y.pub.db.release)))
    case PushRelease(release) =>
      if release.None? then y.(worker := Pushed(y.worker))
      else if ok then y.(remote := y.remote.(release := release), worker := Pushed(y.worker))
      else y.(worker := Resting)
    case _ => y.(worker := Resting)
  }

  function To(w: Worker, stage: Stage): Worker {
    match w
    case Working(pending, _) => Working(pending, stage)
    case Reconciling(_) => Reconciling(stage)
    case Resting => Resting
  }

  function Pushed(w: Worker): Worker {
    if w.Working? then Working(w.pending, Mark) else Resting
  }

  function MarkProcessed(s: State, i: nat): State
    requires i < |s.db.outbox|
  {
    s.(db := s.db.(outbox := s.db.outbox[i := s.db.outbox[i].(processed := true)]))
  }

  ghost function Run(y: System, steps: seq<Step>): System
    decreases |steps|
  {
    if steps == [] then y else Run(Apply(y, steps[0]), steps[1..])
  }

  // ---------------------------------------------------------------- the invariant

  ghost predicate NothingPending(outbox: seq<Event>) {
    forall i :: 0 <= i < |outbox| ==> outbox[i].processed
  }

  /** The processed events come first and their generations are at the remote. */
  ghost predicate ProcessedInv(outbox: seq<Event>, remote: Remote) {
    && (forall i, j :: 0 <= i < j < |outbox| && outbox[j].processed ==> outbox[i].processed)
    && (forall i :: 0 <= i < |outbox| && outbox[i].processed ==> outbox[i].gen in remote.refs)
  }

  /** With every event processed the remote points at the current release. */
  ghost predicate SyncedInv(outbox: seq<Event>, current: Option<Release>, remote: Remote) {
    NothingPending(outbox) ==> remote.release == current
  }

  /** The worker's list is the unprocessed tail as it was when it woke, and what it has
      read or pushed for the newest event is the current release. */
  ghost predicate WorkerInv(outbox: seq<Event>, current: Option<Release>, remote: Remote, worker: Worker) {
    match worker
    case Resting => true
    case Reconciling(stage) =>
      stage.PushRelease? && NothingPending(outbox) ==> stage.release == current
    case Working(pending, stage) =>
      && pending != []
      && (forall j :: 0 <= j < |pending| ==> pending[j] == pending[0] + j < |outbox|)
      && (forall i :: 0 <= i < |outbox| ==> (outbox[i].processed <==> i < pending[0]))
      && (!stage.PushGeneration? ==> outbox[pending[0]].gen in remote.refs)
      && (stage.PushRelease? && pending[0] + 1 == |outbox| ==> stage.release == current)
      && (stage.Mark? && pending[0] + 1 == |outbox| ==> remote.release == current)
  }

  ghost predicate RelayInv(outbox: seq<Event>, current: Option<Release>, remote: Remote, worker: Worker) {
    ProcessedInv(outbox, remote) && SyncedInv(outbox, current, remote) && WorkerInv(outbox, current, remote, worker)
  }

  ghost predicate MirrorInv(y: System) {
    Inv(y.pub) && RelayInv(y.pub.db.outbox, y.pub.db.release, y.remote, y.worker)
  }

  // -------------------------------------------------------------------- the steps

  /** A publisher's step leaves outbox and release alone or appends one unprocessed event. */
  lemma PublishingAppends(s: State, step: Publication.Step)
    ensures var s' := Publication.Apply(s, step);
            || (s'.db.outbox == s.db.outbox && s'.db.release == s.db.release)
            || exists g :: s'.db.outbox == s.db.outbox + [Event(g, false)]
  {
  }

  lemma AppendKeeps(outbox: seq<Event>, current: Option<Release>, current': Option<Release>, remote: Remote,
                    worker: Worker, g: GenId)
    requires RelayInv(outbox, current, remote, worker)
    ensures RelayInv(outbox + [Event(g, false)], current', remote, worker)
  {
    assert !(outbox + [Event(g, false)])[|outbox|].processed;
  }

  lemma PublishKeeps(y: System, step: Publication.Step)
    requires MirrorInv(y)
    ensures MirrorInv(Apply(y, Publish(step)))
  {
    ApplyKeepsInv(y.pub, step);
    PublishingAppends(y.pub, step);
    var db' := Publication.Apply(y.pub, step).db;
    if db'.outbox != y.pub.db.outbox {
      var g :| db'.outbox == y.pub.db.outbox + [Event(g, false)];
      AppendKeeps(y.pub.db.outbox, y.pub.db.release, db'.release, y.remote, y.worker, g);
    }
  }

  lemma {:induction false} PendingIsTail(outbox: seq<Event>, from: nat)
    requires from <= |outbox|
    requires forall i, j :: from <= i < j < |outbox| && outbox[j].processed ==> outbox[i].processed
    ensures var pending := Pending(outbox, from);
            && (pending == [] <==> forall i :: from <= i < |outbox| ==> outbox[i].processed)
            && (forall j :: 0 <= j < |pending| ==> from <= pending[j] == pending[0] + j < |outbox|)
            && (pending != [] ==> pending[0] + |pending| == |outbox|)
            && (pending != [] ==> forall i :: from <= i < |outbox| ==> (outbox[i].processed <==> i < pending[0]))
    decreases |outbox| - from
  {
    if from < |outbox| {
      PendingIsTail(outbox, from + 1);
      var rest := Pending(outbox, from + 1);
      if !outbox[from].processed {
        assert rest != [] ==> rest[0] == from + 1;
      }
    }
  }

  lemma WakeKeeps(y: System)
    requires MirrorInv(y)
    ensures MirrorInv(Apply(y, Wake))
  {
    PendingIsTail(y.pub.db.outbox, 0);
  }

  lemma MarkKeepsInv(s: State, i: nat)
    requires Inv(s) && i < |s.db.outbox|
    ensures Inv(MarkProcessed(s, i))
  {
    var s' := MarkProcessed(s, i);
    assert Grows(s.db, s'.db);
    TablesUnchanged(s.db, s'.db);
    forall p | p in s'.publishers
      ensures PublisherInv(s'.db, s'.publishers[p])
    {
      PublisherStays(s.db, s'.db, s.publishers[p]);
    }
  }

  lemma MarkKeepsRelay(outbox: seq<Event>, current: Option<Release>, remote: Remote, pending: seq<nat>)
    requires RelayInv(outbox, current, remote, Working(pending, Mark))
    ensures RelayInv(outbox[pending[0] := outbox[pending[0]].(processed := true)], current, remote,
                     if |pending| == 1 then Resting else Working(pending[1..], PushGeneration))
  {
    var first := pending[0];
    var outbox' := outbox[first := outbox[first].(processed := true)];
    forall i | 0 <= i < |outbox'|
      ensures outbox'[i].gen == outbox[i].gen
      ensures outbox'[i].processed <==> i <= first
    {
    }
    assert outbox[first].gen in remote.refs;
    assert ProcessedInv(outbox', remote);
    if first + 1 < |outbox| {
      assert !outbox'[first + 1].processed;
    }
    assert SyncedInv(outbox', current, remote);
    if |pending| > 1 {
      var rest := pending[1..];
      assert rest[0] == pending[1] == first + 1;
      assert forall j :: 0 <= j < |rest| ==> rest[j] == pending[j + 1];
      assert WorkerInv(outbox', current, remote, Working(rest, PushGeneration));
    }
  }

  lemma PushGenerationKeeps(outbox: seq<Event>, current: Option<Release>, remote: Remote, pending: seq<nat>)
    requires RelayInv(outbox, current, remote, Working(pending, PushGeneration))
    ensures RelayInv(outbox, current, remote.(refs := remote.refs + {outbox[pending[0]].gen}),
                     Working(pending, ReadRelease))
  {
  }

  /** Pushing what was read: for the newest event, or with none pending, it is current. */
  lemma PushReleaseKeeps(outbox: seq<Event>, current: Option<Release>, remote: Remote, worker: Worker)
    requires RelayInv(outbox, current, remote, worker)
    requires worker.Working? || worker.Reconciling?
    requires worker.stage.PushRelease?
    ensures RelayInv(outbox, current, remote.(release := worker.stage.release), Pushed(worker))
  {
    if worker.Working? {
      assert !outbox[worker.pending[0]].processed;
    }
  }

  /** Without a release there is nothing to push, and no event to be the newest. */
  lemma SkippedPushKeeps(db: Db, remote: Remote, worker: Worker)
    requires DbInv(db) && RelayInv(db.outbox, db.release, remote, worker)
    requires worker.Working? || worker.Reconciling?
    requires worker.stage == PushRelease(None)
    ensures RelayInv(db.outbox, db.release, remote, Pushed(worker))
  {
    assert db.release.None? ==> db.outbox == [];
  }

  /** Resting, and having read the release, are always fine. */
  lemma RestsOrPushes(outbox: seq<Event>, current: Option<Release>, remote: Remote, worker: Worker)
    requires RelayInv(outbox, current, remote, worker)
    ensures RelayInv(outbox, current, remote, Resting)
    ensures (worker.Working? || worker.Reconciling?) && worker.stage.ReadRelease? ==>
              RelayInv(outbox, current, remote, To(worker, PushRelease(current)))
  {
  }

  lemma SyncKeeps(y: System, ok: bool)
    requires MirrorInv(y) && (y.worker.Working? || y.worker.Reconciling?)
    requires y.worker.stage.ReadRelease? || y.worker.stage.PushRelease?
    ensures MirrorInv(GoOn(y, y.worker.stage, ok))
  {
    hide HistoryInv, PublisherInv, Chain;
    var db := y.pub.db;
    RestsOrPushes(db.outbox, db.release, y.remote, y.worker);
    if y.worker.stage.PushRelease? {
      if y.worker.stage.release.None? {
        SkippedPushKeeps(db, y.remote, y.worker);
      } else if ok {
        PushReleaseKeeps(db.outbox, db.release, y.remote, y.worker);
      }
    }
  }

  lemma GoKeeps(y: System, ok: bool)
    requires MirrorInv(y)
    ensures MirrorInv(Apply(y, Go(ok)))
  {
    hide HistoryInv, PublisherInv, DbInv, SyncedInv, ProcessedInv;
    var db := y.pub.db;
    RestsOrPushes(db.outbox, db.release, y.remote, y.worker);
    if !y.worker.Resting? {
      match y.worker.stage
      case PushGeneration =>
        if y.worker.Working? && ok { PushGenerationKeeps(db.outbox, db.release, y.remote, y.worker.pending); }
      case ReadRelease => SyncKeeps(y, ok);
      case PushRelease(_) => SyncKeeps(y, ok);
      case Mark =>
        if y.worker.Working? {
          MarkKeepsInv(y.pub, y.worker.pending[0]);
          MarkKeepsRelay(db.outbox, db.release, y.remote, y.worker.pending);
        }
    }
  }

  lemma {:induction false} RunKeeps(y: System, steps: seq<Step>)
    requires MirrorInv(y)
    ensures MirrorInv(Run(y, steps))
    decreases |steps|
  {
    if steps != [] {
      match steps[0] {
        case Publish(s) => PublishKeeps(y, s);
        case Wake => WakeKeeps(y);
        case Go(ok) => GoKeeps(y, ok);
        case Stop =>
      }
      RunKeeps(Apply(y, steps[0]), steps[1..]);
    }
  }

  /** In every state any interleaving reaches: a processed event's generation is at the
      remote, and when no event is pending the remote's release is the current one. */
  lemma MirrorIsFaithful(steps: seq<Step>)
    ensures var y := Run(START, steps);
      && (forall e :: e in y.pub.db.outbox && e.processed ==> e.gen in y.remote.refs)
      && ((forall e :: e in y.pub.db.outbox ==> e.processed) ==> y.remote.release == y.pub.db.release)
  {
    RunKeeps(START, steps);
  }
}
