/**
 Whole histories of a workspace: remembering, activating, restoring, forgetting and resuming
 in any order, each call dying wherever it likes.  A call ends, or dies, before the next one
 begins; calls that overlap are the subject of `DeletionInterleaving`.
 */
module DeletionRuns {
  import opened Options
  import opened Deletion
  import opened DeletionSafety

  /** A call, with the number of effects its process lives for. */
  datatype Op =
    | Remember(command: CommandId, artifact: ArtifactId, revision: RevisionId, blob: BlobId, dek: nat, life: nat)
    | Forget(id: CommandId, artifact: ArtifactId, blob: BlobId, life: nat)
    | Resume(id: CommandId, artifact: ArtifactId, blob: BlobId, life: nat)
    | Activate(artifact: ArtifactId, blob: BlobId, serving: bool, life: nat)
    | Restore(artifact: ArtifactId, recovered: bool, serving: bool, life: nat)

  function RememberScript(command: CommandId, a: ArtifactId, revision: RevisionId, blob: BlobId,
                          dek: nat): seq<Effect>
  {
    [PutBlob(blob, revision), Record(command, a, revision), CreatePlatform(a, dek), CreateRecovery(a, dek)]
  }

  /** What an activation checks before its transaction. */
  predicate MayBegin(w: World, a: ArtifactId, blob: BlobId, serving: bool) {
    !Vetoed(w, a) && serving && blob !in w.tombstoned && blob in w.blobs
  }

  /** All checks of an activation. */
  predicate MayActivate(w: World, a: ArtifactId, blob: BlobId, serving: bool) {
    MayBegin(w, a, blob, serving) && Apply(w, MakeActive(a, w.blobs[blob])).Some?
  }

  function ActivateScript(w: World, a: ArtifactId, blob: BlobId, serving: bool): seq<Effect> {
    if MayBegin(w, a, blob, serving) then [MakeActive(a, w.blobs[blob])] else []
  }

  function RestoreScript(w: World, a: ArtifactId, recovered: bool, serving: bool): seq<Effect> {
    if Vetoed(w, a) then []
    else [Log(RecoveryDecided)] + if recovered && serving then [Release(a)] else []
  }

  function ScriptOf(w: World, op: Op): seq<Effect> {
    match op
    case Remember(command, a, revision, blob, dek, _) => RememberScript(command, a, revision, blob, dek)
    case Forget(id, a, blob, _) => if Vetoed(w, a) then [] else ForgetScript(id, a, blob)
    case Resume(id, a, blob, _) => if id in w.deletions then ResumeScript(w, id, a, blob) else []
    case Activate(a, blob, serving, _) => ActivateScript(w, a, blob, serving)
    case Restore(a, recovered, serving, _) => RestoreScript(w, a, recovered, serving)
  }

  function Perform(w: World, op: Op): World {
    Execute(w, ScriptOf(w, op), op.life).0
  }

  ghost function Run(w: World, ops: seq<Op>): World
    decreases |ops|
  {
    if ops == [] then w else Run(Perform(w, ops[0]), ops[1..])
  }

  // --------------------------------------------------------------- only forwards

  /** Phases are only ever set for deletion `id`, and in climbing order from `floor` on. */
  ghost predicate Climbing(script: seq<Effect>, id: CommandId, floor: nat)
    decreases |script|
  {
    script == [] ||
    match script[0]
    case SetPhase(command, phase, _) => command == id && Rank(phase) >= floor && Climbing(script[1..], id, Rank(phase))
    case Request(_, _) => false
    case _ => Climbing(script[1..], id, floor)
  }

  lemma ClimbingFirst(e: Effect, rest: seq<Effect>, id: CommandId, floor: nat)
    requires !e.SetPhase? && !e.Request? && Climbing(rest, id, floor)
    ensures Climbing([e] + rest, id, floor)
  {
    assert ([e] + rest)[1..] == rest;
  }

  lemma ClimbingPhase(p: Phase, event: Option<Event>, rest: seq<Effect>, id: CommandId, floor: nat)
    requires Rank(p) >= floor && Climbing(rest, id, Rank(p))
    ensures Climbing([SetPhase(id, p, event)] + rest, id, floor)
  {
    assert ([SetPhase(id, p, event)] + rest)[1..] == rest;
  }

  /** The effects of entering a phase, one by one. */
  lemma EnterThen(p: Phase, id: CommandId, a: ArtifactId, blob: BlobId, forgetting: bool, rest: seq<Effect>)
    ensures var tail := [SetPhase(id, p, EventOf(p, id, a, forgetting))] + rest;
            Enter(p, id, a, blob, forgetting) + rest ==
            if p.TombstoneActive? && forgetting then [Tombstone(blob)] + tail
            else if p.RevocationKeysDestroyed? then [DestroyPlatform(a)] + ([DestroyRecovery(a)] + tail)
            else tail
  {
    hide EventOf;
  }

  /** Entering a phase climbs, whatever has to be done before. */
  lemma EnterClimbs(p: Phase, id: CommandId, a: ArtifactId, blob: BlobId, forgetting: bool, rest: seq<Effect>,
                    floor: nat)
    requires Rank(p) >= floor && Climbing(rest, id, Rank(p))
    ensures Climbing(Enter(p, id, a, blob, forgetting) + rest, id, floor)
  {
    hide Climbing, EventOf, Rank, Enter;
    var event := EventOf(p, id, a, forgetting);
    var tail := [SetPhase(id, p, event)] + rest;
    EnterThen(p, id, a, blob, forgetting, rest);
    ClimbingPhase(p, event, rest, id, floor);
    if p.TombstoneActive? && forgetting {
      ClimbingFirst(Tombstone(blob), tail, id, floor);
    } else if p.RevocationKeysDestroyed? {
      ClimbingFirst(DestroyRecovery(a), tail, id, floor);
      ClimbingFirst(DestroyPlatform(a), [DestroyRecovery(a)] + tail, id, floor);
    }
  }

  lemma {:induction false} DriveClimbs(p: Phase, id: CommandId, a: ArtifactId, blob: BlobId, forgetting: bool)
    ensures Climbing(Drive(p, id, a, blob, forgetting), id, Rank(p))
    decreases 7 - Rank(p)
  {
    if p.Complete? {
      assert Climbing([], id, 7);
    } else {
      hide Climbing, Enter;
      var next := Next(p);
      DriveClimbs(next, id, a, blob, forgetting);
      EnterClimbs(next, id, a, blob, forgetting, Drive(next, id, a, blob, forgetting), Rank(p));
    }
  }

  lemma ApplyIsForward(w: World, e: Effect)
    requires Apply(w, e).Some?
    requires e.SetPhase? && e.command in w.deletions ==> Rank(w.deletions[e.command].phase) <= Rank(e.phase)
    ensures Forward(w, Apply(w, e).value)
  {
  }

  function FloorAfter(e: Effect, floor: nat): nat {
    if e.SetPhase? then Rank(e.phase) else floor
  }

  lemma ClimbOne(w: World, e: Effect, id: CommandId, floor: nat)
    requires Apply(w, e).Some? && !e.Request?
    requires e.SetPhase? ==> e.command == id && Rank(e.phase) >= floor
    requires id in w.deletions ==> Rank(w.deletions[id].phase) <= floor
    ensures var next := Apply(w, e).value;
            && Forward(w, next)
            && (id in next.deletions ==> Rank(next.deletions[id].phase) <= FloorAfter(e, floor))
  {
    ApplyIsForward(w, e);
    hide Forward;
  }

  lemma {:induction false} ClimbIsForward(w: World, script: seq<Effect>, id: CommandId, floor: nat, life: nat)
    requires Climbing(script, id, floor)
    requires id in w.deletions ==> Rank(w.deletions[id].phase) <= floor
    ensures Forward(w, Execute(w, script, life).0)
    decreases |script|
  {
    hide Apply;
    if script == [] || life == 0 || Apply(w, script[0]).None? {
      assert Execute(w, script, life).0 == w;
    } else {
      hide Forward, Rank;
      ClimbOne(w, script[0], id, floor);
      var next := Apply(w, script[0]).value;
      ClimbIsForward(next, script[1..], id, FloorAfter(script[0], floor), life - 1);
      ForwardTwice(w, next, Execute(next, script[1..], life - 1).0);
    }
  }

  lemma NoPhasesClimb(w: World, op: Op)
    requires op.Remember? || op.Activate? || op.Restore?
    ensures Climbing(ScriptOf(w, op), 0, 7)
  {
    match op
    case Remember(command, a, revision, blob, dek, _) =>
      ClimbingFirst(CreateRecovery(a, dek), [], 0, 7);
      ClimbingFirst(CreatePlatform(a, dek), [CreateRecovery(a, dek)], 0, 7);
      ClimbingFirst(Record(command, a, revision), [CreatePlatform(a, dek), CreateRecovery(a, dek)], 0, 7);
      var last := [Record(command, a, revision), CreatePlatform(a, dek), CreateRecovery(a, dek)];
      assert [Record(command, a, revision)] + [CreatePlatform(a, dek), CreateRecovery(a, dek)] == last;
      ClimbingFirst(PutBlob(blob, revision), last, 0, 7);
      assert [PutBlob(blob, revision)] + last == ScriptOf(w, op);
    case Activate(a, blob, serving, _) =>
      if MayBegin(w, a, blob, serving) {
        ClimbingFirst(MakeActive(a, w.blobs[blob]), [], 0, 7);
      }
    case Restore(a, recovered, serving, _) =>
      ClimbingFirst(Release(a), [], 0, 7);
      ClimbingFirst(Log(RecoveryDecided), [], 0, 7);
      ClimbingFirst(Log(RecoveryDecided), [Release(a)], 0, 7);
  }

  lemma ForgetIsForward(w: World, id: CommandId, a: ArtifactId, blob: BlobId, life: nat)
    ensures Forward(w, Execute(w, ForgetScript(id, a, blob), life).0)
  {
    hide Drive;
    var rest := Drive(Requested, id, a, blob, true);
    ExecuteFirst(w, Request(id, a), rest, life);
    if life > 0 && Apply(w, Request(id, a)).Some? {
      ApplyIsForward(w, Request(id, a));
      var requested := Apply(w, Request(id, a)).value;
      hide Forward;
      DriveClimbs(Requested, id, a, blob, true);
      ClimbIsForward(requested, rest, id, 0, life - 1);
      ForwardTwice(w, requested, Execute(requested, rest, life - 1).0);
    }
  }

  /** Every call, whatever its arguments and wherever it dies, only moves forwards. */
  lemma PerformIsForward(w: World, op: Op)
    ensures Forward(w, Perform(w, op))
  {
    hide Forward;
    ClimbIsForward(w, [], 0, 7, op.life);
    if op.Forget? {
      ForgetIsForward(w, op.id, op.artifact, op.blob, op.life);
    } else if op.Resume? {
      if op.id in w.deletions && !w.deletions[op.id].phase.Complete? {
        var p := w.deletions[op.id].phase;
        var rest := Drive(p, op.id, op.artifact, op.blob, false);
        DriveClimbs(p, op.id, op.artifact, op.blob, false);
        ClimbingFirst(Tombstone(op.blob), rest, op.id, Rank(p));
        assert [] + rest == rest;
        ClimbIsForward(w, ScriptOf(w, op), op.id, Rank(p), op.life);
      }
    } else {
      NoPhasesClimb(w, op);
      if 0 in w.deletions {
        RankIsSmall(w.deletions[0].phase);
      }
      ClimbIsForward(w, ScriptOf(w, op), 0, 7, op.life);
    }
  }

  lemma RankIsSmall(p: Phase)
    ensures Rank(p) <= 7
  {
  }

  /** In every history of calls that follow one another deletions only advance and nothing
      deleted returns. */
  lemma {:induction false} RunIsForward(w: World, ops: seq<Op>)
    ensures Forward(w, Run(w, ops))
    decreases |ops|
  {
    if ops != [] {
      PerformIsForward(w, ops[0]);
      RunIsForward(Perform(w, ops[0]), ops[1..]);
      ForwardTwice(w, Perform(w, ops[0]), Run(Perform(w, ops[0]), ops[1..]));
    }
  }

  // ------------------------------------------------------------ the veto is permanent

  lemma VetoStays(v: World, w: World, a: ArtifactId)
    requires Vetoed(v, a) && Forward(v, w)
    ensures Vetoed(w, a)
  {
    var id :| id in v.deletions && v.deletions[id].artifact == a;
    assert id in w.deletions;
  }

  /** Known artifact `a` has the same custody state in both worlds. */
  ghost predicate SameState(v: World, w: World, a: ArtifactId) {
    && a in v.artifacts && a in w.artifacts
    && (a in v.custody <==> a in w.custody)
    && (a in v.custody ==> w.custody[a] == v.custody[a])
  }

  /** `e` makes `a` active. */
  predicate Touches(e: Effect, a: ArtifactId) {
    (e.MakeActive? || e.Release?) && e.artifact == a
  }

  ghost predicate Spares(script: seq<Effect>, a: ArtifactId) {
    forall e :: e in script ==> !Touches(e, a)
  }

  lemma SpareOne(w: World, e: Effect, a: ArtifactId)
    requires a in w.artifacts && Apply(w, e).Some? && !Touches(e, a)
    ensures SameState(w, Apply(w, e).value, a)
  {
  }

  lemma {:induction false} SparedState(w: World, script: seq<Effect>, a: ArtifactId, life: nat)
    requires Spares(script, a) && a in w.artifacts
    ensures SameState(w, Execute(w, script, life).0, a)
    decreases |script|
  {
    hide Apply;
    if script == [] || life == 0 || Apply(w, script[0]).None? {
      assert Execute(w, script, life).0 == w;
    } else {
      SpareOne(w, script[0], a);
      SparedState(Apply(w, script[0]).value, script[1..], a, life - 1);
    }
  }

  lemma {:induction false} DriveSpares(p: Phase, id: CommandId, a: ArtifactId, blob: BlobId, forgetting: bool,
                                       b: ArtifactId)
    ensures Spares(Drive(p, id, a, blob, forgetting), b)
    decreases 7 - Rank(p)
  {
    if !p.Complete? {
      DriveSpares(Next(p), id, a, blob, forgetting, b);
    }
  }

  /** No call activates or restores a vetoed artifact. */
  lemma VetoedIsSpared(w: World, op: Op, a: ArtifactId)
    requires Vetoed(w, a)
    ensures Spares(ScriptOf(w, op), a)
  {
    hide Vetoed;
    if op.Forget? {
      DriveSpares(Requested, op.id, op.artifact, op.blob, true, a);
    } else if op.Resume? && op.id in w.deletions {
      DriveSpares(w.deletions[op.id].phase, op.id, op.artifact, op.blob, false, a);
    }
  }

  /** From the request on, in every history, the artifact stays vetoed and its custody
      state is never touched again; in particular it never becomes active. */
  lemma {:induction false} VetoIsForever(w: World, ops: seq<Op>, a: ArtifactId)
    requires Vetoed(w, a) && a in w.artifacts
    ensures Vetoed(Run(w, ops), a) && SameState(w, Run(w, ops), a)
    decreases |ops|
  {
    if ops != [] {
      var next := Perform(w, ops[0]);
      PerformIsForward(w, ops[0]);
      VetoStays(w, next, a);
      VetoedIsSpared(w, ops[0], a);
      SparedState(w, ScriptOf(w, ops[0]), a, ops[0].life);
      hide Vetoed, Perform, Forward;
      VetoIsForever(next, ops[1..], a);
    }
  }

  // ------------------------------------- an activation or a restoration under way

  /** Artifact `a` is still there, with the revision it had. */
  ghost predicate Known(v: World, w: World, a: ArtifactId) {
    && a in v.artifacts && a in w.artifacts && w.artifacts[a] == v.artifacts[a]
    && (a in v.custody ==> a in w.custody)
  }

  lemma KnownAfterOne(w: World, e: Effect, a: ArtifactId)
    requires a in w.artifacts && Apply(w, e).Some?
    ensures Known(w, Apply(w, e).value, a)
  {
  }

  lemma ForgetLeavesRow(w: World, id: CommandId, a: ArtifactId, blob: BlobId, life: nat)
    requires !Vetoed(w, a) && a in w.artifacts && id !in w.commands && id !in w.deletions && life > 0
    ensures var next := Perform(w, Forget(id, a, blob, life));
            id in next.deletions && next.deletions[id].artifact == a && next.custody == w.custody &&
                next.artifacts == w.artifacts
  {
    hide Drive, Forward, Vetoed;
    ForgetIsSafe(w, id, a, blob, life);
    hide ForgetScript, Execute;
  }

  /** A request that falls between the checks and the commit of an activation leaves a vetoed
      artifact active. */
  lemma RequestInBetween(w: World, id: CommandId, a: ArtifactId, blob: BlobId, serving: bool, life: nat)
    requires MayActivate(w, a, blob, serving) && id !in w.commands && id !in w.deletions && life > 0
    ensures var requested := Perform(w, Forget(id, a, blob, life));
            var committed := Apply(requested, MakeActive(a, w.blobs[blob]));
            Vetoed(requested, a) && committed.Some? && committed.value.custody[a].Active? && Vetoed(committed.value, a)
  {
    ForgetLeavesRow(w, id, a, blob, life);
    hide Perform;
  }

  /** So does one that falls between the checks and the commit of a restoration, also when
      the artifact is active already and when the deletion has run to its end. */
  lemma RequestBeforeRelease(w: World, id: CommandId, a: ArtifactId, blob: BlobId, life: nat)
    requires !Vetoed(w, a) && a in w.artifacts && id !in w.commands && id !in w.deletions && life > 0
    ensures var requested := Perform(w, Forget(id, a, blob, life));
            var released := Apply(requested, Release(a));
            Vetoed(requested, a) && released.Some? && released.value.custody[a].Active? && Vetoed(released.value, a)
  {
    ForgetLeavesRow(w, id, a, blob, life);
    hide Perform;
  }

  // ------------------------------------------------------------ promises are kept

  ghost predicate Elsewhere(script: seq<Effect>, id: CommandId) {
    forall e :: e in script ==> !((e.SetPhase? || e.Request?) && e.command == id)
  }

  ghost predicate SameRow(v: World, w: World, id: CommandId) {
    id in v.deletions && id in w.deletions && w.deletions[id] == v.deletions[id]
  }

  lemma ElsewhereOne(w: World, e: Effect, id: CommandId)
    requires id in w.deletions && Apply(w, e).Some? && !((e.SetPhase? || e.Request?) && e.command == id)
    ensures SameRow(w, Apply(w, e).value, id)
  {
  }

  lemma {:induction false} ElsewhereRow(w: World, script: seq<Effect>, id: CommandId, life: nat)
    requires Elsewhere(script, id) && id in w.deletions
    ensures SameRow(w, Execute(w, script, life).0, id)
    decreases |script|
  {
    hide Apply;
    if script == [] || life == 0 || Apply(w, script[0]).None? {
      assert Execute(w, script, life).0 == w;
    } else {
      ElsewhereOne(w, script[0], id);
      ElsewhereRow(Apply(w, script[0]).value, script[1..], id, life - 1);
    }
  }

  lemma {:induction false} DriveIsElsewhere(p: Phase, id: CommandId, a: ArtifactId, blob: BlobId, forgetting: bool,
                                            other: CommandId)
    requires other != id
    ensures Elsewhere(Drive(p, id, a, blob, forgetting), other)
    decreases 7 - Rank(p)
  {
    if !p.Complete? {
      DriveIsElsewhere(Next(p), id, a, blob, forgetting, other);
    }
  }

  /** A resume of deletion `id` is given the deletion's own artifact and blob. */
  predicate Addressed(op: Op, id: CommandId, a: ArtifactId, blob: BlobId) {
    op.Resume? && op.id == id ==> op.artifact == a && op.blob == blob
  }

  lemma OtherOpsAreElsewhere(w: World, op: Op, id: CommandId)
    requires id in w.deletions && !(op.Resume? && op.id == id)
    ensures SameRow(w, Perform(w, op), id)
  {
    if op.Forget? {
      if op.id == id {
        ExecuteFirst(w, Request(id, op.artifact), Drive(Requested, id, op.artifact, op.blob, true), op.life);
      } else {
        DriveIsElsewhere(Requested, op.id, op.artifact, op.blob, true, id);
        hide Drive;
        ElsewhereRow(w, ScriptOf(w, op), id, op.life);
      }
    } else {
      if op.Resume? && op.id in w.deletions {
        DriveIsElsewhere(w.deletions[op.id].phase, op.id, op.artifact, op.blob, false, id);
      }
      hide Drive;
      ElsewhereRow(w, ScriptOf(w, op), id, op.life);
    }
  }

  lemma SameRowIsKept(v: World, w: World, id: CommandId, blob: BlobId)
    requires Kept(v, id, blob) && SameRow(v, w, id) && Forward(v, w)
    ensures Kept(w, id, blob)
  {
  }

  lemma PerformKeeps(w: World, op: Op, id: CommandId, blob: BlobId)
    requires Kept(w, id, blob) && Addressed(op, id, w.deletions[id].artifact, blob)
    ensures Kept(Perform(w, op), id, blob) && Perform(w, op).deletions[id].artifact == w.deletions[id].artifact
  {
    if op.Resume? && op.id == id {
      ResumeIsSafe(w, id, op.artifact, blob, op.life);
      hide Kept;
    } else {
      hide Forward;
      OtherOpsAreElsewhere(w, op, id);
      PerformIsForward(w, op);
      SameRowIsKept(w, Perform(w, op), id, blob);
    }
  }

  /** Whatever a deletion claims by its phase is true and stays true in every history that
      resumes it with its own artifact and blob. */
  lemma {:induction false} RunKeeps(w: World, ops: seq<Op>, id: CommandId, blob: BlobId)
    requires Kept(w, id, blob)
    requires forall op :: op in ops ==> Addressed(op, id, w.deletions[id].artifact, blob)
    ensures Kept(Run(w, ops), id, blob) && Run(w, ops).deletions[id].artifact == w.deletions[id].artifact
    decreases |ops|
  {
    if ops != [] {
      hide Kept, Perform;
      PerformKeeps(w, ops[0], id, blob);
      RunKeeps(Perform(w, ops[0]), ops[1..], id, blob);
    }
  }

  /** What the key stores' lookup returns. */
  function ReadKey(store: map<ArtifactId, Entry>, a: ArtifactId): Option<nat> {
    if a in store && store[a].Wrapped? then Some(store[a].dek) else None
  }

  /** Once a deletion has reached key destruction no history makes the key readable again. */
  lemma ShreddedForever(w: World, ops: seq<Op>, id: CommandId, blob: BlobId)
    requires Kept(w, id, blob) && Rank(w.deletions[id].phase) >= 4
    ensures var a, last := w.deletions[id].artifact, Run(w, ops);
            ReadKey(last.platform, a) == None && ReadKey(last.recovery, a) == None && blob in last.tombstoned
  {
    RunIsForward(w, ops);
  }

  /** The end of a resume that did not die: complete with everything gone exactly when the
      keys were destroyed already or both stores held an entry, else held with the veto and
      the tombstone in place. */
  ghost predicate Settled(w: World, r: (World, Outcome), id: CommandId, a: ArtifactId, blob: BlobId) {
    && id in w.deletions && id in r.0.deletions && blob in r.0.tombstoned
    && (r.1.Done? <==> Rank(w.deletions[id].phase) >= 4 || InCustody(w, a))
    && (r.1.Done? ==> r.0.deletions[id].phase.Complete? && Gone(r.0, a))
    && (!r.1.Done? ==> r.0.deletions[id].phase.CheckpointCommitted?)
  }

  lemma ResumeSettles(w: World, id: CommandId, a: ArtifactId, blob: BlobId, life: nat)
    requires Kept(w, id, blob) && w.deletions[id].artifact == a && life >= |ResumeScript(w, id, a, blob)|
    ensures Settled(w, Execute(w, ResumeScript(w, id, a, blob), life), id, a, blob)
  {
    ResumeIsSafe(w, id, a, blob, life);
    hide ResumeScript, InCustody;
  }

  /** Forget, die at any point, and let anything happen: the claims of the deletion hold, the
      artifact is vetoed, and the next resume that does not die settles the deletion;
      entries held by both stores at the request are still there. */
  lemma EveryHistorySettles(w: World, id: CommandId, a: ArtifactId, blob: BlobId, life: nat, ops: seq<Op>, enough: nat)
    requires !Vetoed(w, a) && id !in w.commands && id !in w.deletions && a in w.artifacts && life > 0
    requires forall op :: op in ops ==> Addressed(op, id, a, blob)
    ensures var last := Run(Perform(w, Forget(id, a, blob, life)), ops);
            && Kept(last, id, blob) && last.deletions[id].artifact == a && Vetoed(last, a)
            && (InCustody(w, a) ==> InCustody(last, a))
            && (enough >= |ResumeScript(last, id, a, blob)| ==>
                  Settled(last, Execute(last, ResumeScript(last, id, a, blob), enough), id, a, blob))
  {
    hide ResumeScript, Settled, Drive;
    ForgetIsSafe(w, id, a, blob, life);
    var first := Perform(w, Forget(id, a, blob, life));
    assert first == Execute(w, ForgetScript(id, a, blob), life).0;
    hide ForgetScript, Perform;
    RunKeeps(first, ops, id, blob);
    RunIsForward(first, ops);
    var last := Run(first, ops);
    if enough >= |ResumeScript(last, id, a, blob)| {
      ResumeSettles(last, id, a, blob, enough);
    }
    hide Kept;
    ForwardTwice(w, first, last);
  }

  // ---------------------------------------- resuming with another artifact or blob

  /** A drive given artifact `b` has brought deletion `id` of `a` to phase `p`; it has
      destroyed the keys of `b` if it was before that. */
  ghost predicate Driven(v: World, w: World, id: CommandId, a: ArtifactId, b: ArtifactId, p: Phase, destroyed: bool) {
    && w.tombstoned == v.tombstoned && w.deletions == v.deletions[id := Deletion(a, p)]
    && w.platform == (if destroyed then v.platform[b := Destroyed] else v.platform)
    && w.recovery == (if destroyed then v.recovery[b := Destroyed] else v.recovery)
  }

  /** A drive given artifact `b` was held before key destruction. */
  ghost predicate Held(v: World, w: World, id: CommandId, a: ArtifactId, b: ArtifactId) {
    && w.tombstoned == v.tombstoned && w.deletions == v.deletions[id := Deletion(a, CheckpointCommitted)]
    && (w.platform == v.platform || (b in v.platform && w.platform == v.platform[b := Destroyed]))
    && w.recovery == v.recovery
  }

  /** How a turn from phase `p` ends that is given artifact `b` and does not die. */
  ghost predicate TurnOutcome(w: World, r: (World, Outcome), id: CommandId, a: ArtifactId, b: ArtifactId, p: Phase)
    requires !p.Complete?
  {
    if p.CheckpointCommitted? && !InCustody(w, b) then r.1.Failed? && Held(w, r.0, id, a, b)
    else r.1.Done? && Driven(w, r.0, id, a, b, Next(p), p.CheckpointCommitted?)
  }

  /** How the rest of a drive from phase `p` ends that is given artifact `b` and does not die. */
  ghost predicate DriveOutcome(w: World, r: (World, Outcome), id: CommandId, a: ArtifactId, b: ArtifactId, p: Phase) {
    if Rank(p) >= 4 || InCustody(w, b) then r.1.Done? && Driven(w, r.0, id, a, b, Complete, Rank(p) < 4)
    else r.1.Failed? && Held(w, r.0, id, a, b)
  }

  lemma DestroyingTurn(w: World, id: CommandId, a: ArtifactId, b: ArtifactId, blob: BlobId, life: nat)
    requires At(w, id, a, CheckpointCommitted) && life >= 3
    ensures TurnOutcome(w, Execute(w, Enter(RevocationKeysDestroyed, id, b, blob, false), life), id, a, b,
                        CheckpointCommitted)
  {
    var last := SetPhase(id, RevocationKeysDestroyed, EventOf(RevocationKeysDestroyed, id, b, false));
    assert Enter(RevocationKeysDestroyed, id, b, blob, false) ==
           [DestroyPlatform(b)] + ([DestroyRecovery(b)] + ([last] + []));
    ExecuteFirst(w, DestroyPlatform(b), [DestroyRecovery(b)] + ([last] + []), life);
    if b in w.platform {
      var w1 := Apply(w, DestroyPlatform(b)).value;
      ExecuteFirst(w1, DestroyRecovery(b), [last] + [], life - 1);
      if b in w.recovery {
        ExecuteFirst(Apply(w1, DestroyRecovery(b)).value, last, [], life - 2);
      }
    }
  }

  lemma PlainTurn(w: World, id: CommandId, a: ArtifactId, b: ArtifactId, blob: BlobId, p: Phase, life: nat)
    requires !p.Complete? && !p.CheckpointCommitted? && At(w, id, a, p) && life >= 1
    ensures TurnOutcome(w, Execute(w, Enter(Next(p), id, b, blob, false), life), id, a, b, p)
  {
    var last := SetPhase(id, Next(p), EventOf(Next(p), id, b, false));
    assert Enter(Next(p), id, b, blob, false) == [last] + [];
    ExecuteFirst(w, last, [], life);
  }

  lemma TurnAndRest(w: World, turn: (World, Outcome), rest: (World, Outcome), id: CommandId, a: ArtifactId,
                    b: ArtifactId, p: Phase)
    requires !p.Complete? && At(w, id, a, p) && TurnOutcome(w, turn, id, a, b, p)
    requires turn.1.Done? ==> DriveOutcome(turn.0, rest, id, a, b, Next(p))
    ensures turn.1.Done? ==> At(turn.0, id, a, Next(p))
    ensures DriveOutcome(w, if turn.1.Done? then rest else turn, id, a, b, p)
  {
  }

  /** What a drive does that is given any artifact and blob and does not die. */
  lemma {:induction false} AnyDrive(w: World, id: CommandId, a: ArtifactId, b: ArtifactId, blob: BlobId, p: Phase,
                                    life: nat)
    requires At(w, id, a, p) && life >= |Drive(p, id, b, blob, false)|
    ensures DriveOutcome(w, Execute(w, Drive(p, id, b, blob, false), life), id, a, b, p)
    decreases 7 - Rank(p)
  {
    if p.Complete? {
      assert w.deletions == w.deletions[id := Deletion(a, Complete)];
    } else {
      var turn, rest := Enter(Next(p), id, b, blob, false), Drive(Next(p), id, b, blob, false);
      if p.CheckpointCommitted? {
        DestroyingTurn(w, id, a, b, blob, life);
      } else {
        PlainTurn(w, id, a, b, blob, p, life);
      }
      ExecuteBoth(w, turn, rest, life);
      var middle := Execute(w, turn, life);
      assert middle.1.Done? ==> At(middle.0, id, a, Next(p));
      hide Enter, Apply, Driven, Held, TurnOutcome, DriveOutcome, At, InCustody, Execute;
      if middle.1.Done? {
        AnyDrive(middle.0, id, a, b, blob, Next(p), life - |turn|);
        TurnAndRest(w, middle, Execute(middle.0, rest, life - |turn|), id, a, b, p);
      } else {
        TurnAndRest(w, middle, middle, id, a, b, p);
      }
    }
  }

  /** Resuming a deletion that is not complete first sees to the tombstone of the blob it is given. */
  function Marked(w: World, id: CommandId, blob: BlobId): World
    requires id in w.deletions
  {
    if w.deletions[id].phase.Complete? || blob in w.tombstoned then w else w.(tombstoned := w.tombstoned + {blob})
  }

  /** What a resume does that is given any artifact and blob and does not die. */
  lemma AnyResume(w: World, id: CommandId, b: ArtifactId, blob: BlobId, life: nat)
    requires id in w.deletions && life >= |ResumeScript(w, id, b, blob)|
    ensures DriveOutcome(Marked(w, id, blob), Execute(w, ResumeScript(w, id, b, blob), life), id,
                         w.deletions[id].artifact, b,
                         w.deletions[id].phase)
  {
    var a, p := w.deletions[id].artifact, w.deletions[id].phase;
    var rest := Drive(p, id, b, blob, false);
    ResumeScriptIs(w, id, b, blob);
    hide DriveOutcome, Execute, Apply, Drive, ResumeScript;
    if p.Complete? || blob in w.tombstoned {
      AnyDrive(w, id, a, b, blob, p, life);
    } else {
      ExecuteTombstone(w, blob, rest, life);
      AnyDrive(Marked(w, id, blob), id, a, b, blob, p, life - 1);
    }
  }

  lemma ResumeScriptIs(w: World, id: CommandId, b: ArtifactId, blob: BlobId)
    requires id in w.deletions
    ensures var p := w.deletions[id].phase;
            ResumeScript(w, id, b, blob) ==
            if p.Complete? || blob in w.tombstoned then Drive(p, id, b, blob, false)
            else [Tombstone(blob)] + Drive(p, id, b, blob, false)
  {
    var rest := Drive(w.deletions[id].phase, id, b, blob, false);
    assert [] + rest == rest;
  }

  /** A resume may go on with deletion `id` of `a` and `blob` under the names `b` and `other`. */
  ghost predicate Harmless(w: World, id: CommandId, blob: BlobId, b: ArtifactId, other: BlobId)
    requires id in w.deletions
  {
    var a := w.deletions[id].artifact;
    && (other == blob || blob in w.tombstoned)
    && (b == a || Rank(w.deletions[id].phase) >= 4 || !InCustody(w, b) || Gone(w, a))
  }

  /** The program compares neither the artifact nor the blob it is given with the deletion's.
      What the deletion claims is true after a resume that did not die exactly if each was the
      right one or could do no harm: the blob was tombstoned before, the keys were not to be
      destroyed any more, could not be, or were gone. */
  lemma ResumeMustNameItsDeletion(w: World, id: CommandId, blob: BlobId, b: ArtifactId, other: BlobId, life: nat)
    requires Kept(w, id, blob) && life >= |ResumeScript(w, id, b, other)|
    ensures Kept(Execute(w, ResumeScript(w, id, b, other), life).0, id, blob) <==> Harmless(w, id, blob, b, other)
  {
    AnyResume(w, id, b, other, life);
    hide ResumeScript, Execute;
  }

  /** The keys of the artifact it is given are gone then, although its deletion may never have
      been asked for: the resume vetoes nothing that was not vetoed. */
  lemma WrongKeysAreDestroyed(w: World, id: CommandId, b: ArtifactId, other: BlobId, life: nat)
    requires id in w.deletions && Rank(w.deletions[id].phase) < 4 && InCustody(w, b)
    requires life >= |ResumeScript(w, id, b, other)|
    ensures var r := Execute(w, ResumeScript(w, id, b, other), life).0;
            Gone(r, b) && forall x :: Vetoed(r, x) <==> Vetoed(w, x)
  {
    AnyResume(w, id, b, other, life);
    var r := Execute(w, ResumeScript(w, id, b, other), life).0;
    hide ResumeScript, Execute;
    assert r.deletions.Keys == w.deletions.Keys;
    assert forall i :: i in w.deletions ==> r.deletions[i].artifact == w.deletions[i].artifact;
    forall x
      ensures Vetoed(r, x) <==> Vetoed(w, x)
    {
    }
  }
}
