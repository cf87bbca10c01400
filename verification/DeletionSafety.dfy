/** What every crash point of forgetting and resuming leaves true. */
module DeletionSafety {
  import opened Options
  import opened Deletion

  /** Deletion `id` is of `a` and has reached phase `p`. */
  ghost predicate At(w: World, id: CommandId, a: ArtifactId, p: Phase) {
    id in w.deletions && w.deletions[id] == Deletion(a, p)
  }

  /** What part of a drive, crashed or not, does to the world: it advances its own deletion,
      tombstones, destroys keys, logs, and leaves everything else alone. */
  ghost predicate Safe(v: World, w: World, id: CommandId, a: ArtifactId, blob: BlobId) {
    && id in v.deletions && id in w.deletions && v.deletions[id].artifact == a
    && w.deletions == v.deletions[id := Deletion(a, w.deletions[id].phase)]
    && Rank(v.deletions[id].phase) <= Rank(w.deletions[id].phase)
    && v.tombstoned <= w.tombstoned && v.events <= w.events
    && StoreForward(v.platform, w.platform) && StoreForward(v.recovery, w.recovery)
    && w.platform.Keys == v.platform.Keys && w.recovery.Keys == v.recovery.Keys
    && w.custody == v.custody && w.artifacts == v.artifacts && w.commands == v.commands && w.blobs == v.blobs
    && Kept(w, id, blob)
  }

  lemma SafeIsForward(v: World, w: World, id: CommandId, a: ArtifactId, blob: BlobId)
    requires Safe(v, w, id, a, blob)
    ensures Forward(v, w)
  {
  }

  lemma SafeTwice(u: World, v: World, w: World, id: CommandId, a: ArtifactId, blob: BlobId)
    requires Safe(u, v, id, a, blob) && Safe(v, w, id, a, blob)
    ensures Safe(u, w, id, a, blob)
  {
  }

  lemma SafeHere(w: World, id: CommandId, a: ArtifactId, blob: BlobId)
    requires Kept(w, id, blob) && w.deletions[id].artifact == a
    ensures Safe(w, w, id, a, blob)
  {
  }

  lemma SameCustody(v: World, w: World, id: CommandId, a: ArtifactId, blob: BlobId)
    requires Safe(v, w, id, a, blob)
    ensures InCustody(v, a) <==> InCustody(w, a)
  {
  }

  /** Ready to enter the phase after `p`. */
  ghost predicate Ready(w: World, id: CommandId, a: ArtifactId, blob: BlobId, p: Phase, forgetting: bool) {
    At(w, id, a, p) && Kept(w, id, blob) && (blob in w.tombstoned || (forgetting && Rank(p) < 2))
  }

  // ------------------------------------------------------------------ single effects

  lemma EntryIsSafe(w: World, id: CommandId, a: ArtifactId, blob: BlobId, p: Phase, forgetting: bool)
    requires !p.Complete? && Ready(w, id, a, blob, p, forgetting)
    requires Rank(Next(p)) >= 2 ==> blob in w.tombstoned
    requires Rank(Next(p)) >= 4 ==> Gone(w, a)
    ensures var next := Apply(w, SetPhase(id, Next(p), EventOf(Next(p), id, a, forgetting)));
            next.Some? && Safe(w, next.value, id, a, blob) && Ready(next.value, id, a, blob, Next(p), forgetting)
  {
  }

  lemma TombstoneIsSafe(w: World, id: CommandId, a: ArtifactId, blob: BlobId, p: Phase, forgetting: bool)
    requires At(w, id, a, p) && Kept(w, id, blob)
    ensures var next := Apply(w, Tombstone(blob));
            next.Some? && Safe(w, next.value, id, a, blob) && Ready(next.value, id, a, blob, p, forgetting)
            && blob in next.value.tombstoned
  {
  }

  lemma DestroyPlatformIsSafe(w: World, id: CommandId, a: ArtifactId, blob: BlobId, p: Phase, forgetting: bool)
    requires Ready(w, id, a, blob, p, forgetting)
    ensures var next := Apply(w, DestroyPlatform(a));
            (next.Some? <==> a in w.platform) &&
            (next.Some? ==> Safe(w, next.value, id, a, blob) && Ready(next.value, id, a, blob, p, forgetting) &&
                            next.value.platform[a].Destroyed?)
  {
  }

  lemma DestroyRecoveryIsSafe(w: World, id: CommandId, a: ArtifactId, blob: BlobId, p: Phase, forgetting: bool)
    requires Ready(w, id, a, blob, p, forgetting)
    ensures var next := Apply(w, DestroyRecovery(a));
            (next.Some? <==> a in w.recovery) &&
            (next.Some? ==> Safe(w, next.value, id, a, blob) && Ready(next.value, id, a, blob, p, forgetting) &&
                            next.value.platform == w.platform && next.value.recovery[a].Destroyed?)
  {
  }

  // ------------------------------------------------------------------------ turns

  /** How a turn of a drive into phase `p`, of `steps` effects, may end. */
  ghost predicate TurnEnds(w: World, r: (World, Outcome), id: CommandId, a: ArtifactId, blob: BlobId, p: Phase,
                           forgetting: bool, life: nat, steps: nat)
  {
    && Safe(w, r.0, id, a, blob)
    && (r.1.Done? ==> Ready(r.0, id, a, blob, p, forgetting) && (Rank(p) >= 4 ==> InCustody(w, a)))
    && (r.1.Failed? ==> p.RevocationKeysDestroyed? && At(r.0, id, a, CheckpointCommitted) && !InCustody(w, a))
    && (r.1.Crashed? ==> life < steps)
  }

  lemma ExecuteFirst(w: World, e: Effect, rest: seq<Effect>, life: nat)
    ensures Execute(w, [e] + rest, life) ==
            if life == 0 then (w, Crashed)
            else match Apply(w, e) case None => (w, Failed) case Some(next) => Execute(next, rest, life - 1)
  {
    assert ([e] + rest)[1..] == rest;
  }

  lemma ExecuteTombstone(w: World, blob: BlobId, rest: seq<Effect>, life: nat)
    ensures Execute(w, [Tombstone(blob)] + rest, life) ==
            if life == 0 then (w, Crashed) else Execute(w.(tombstoned := w.tombstoned + {blob}), rest, life - 1)
  {
    ExecuteFirst(w, Tombstone(blob), rest, life);
  }

  /** A safe effect in front of a turn. */
  lemma EffectThenTurn(w: World, e: Effect, rest: seq<Effect>, id: CommandId, a: ArtifactId, blob: BlobId, p: Phase,
                       forgetting: bool, life: nat, steps: nat)
    requires Apply(w, e).Some? && Safe(w, Apply(w, e).value, id, a, blob) && Safe(w, w, id, a, blob)
    requires life > 0 ==>
               TurnEnds(Apply(w, e).value, Execute(Apply(w, e).value, rest, life - 1), id, a, blob, p, forgetting,
                        life - 1, steps)
    ensures TurnEnds(w, Execute(w, [e] + rest, life), id, a, blob, p, forgetting, life, steps + 1)
  {
    hide Apply;
    ExecuteFirst(w, e, rest, life);
    var w1 := Apply(w, e).value;
    SameCustody(w, w1, id, a, blob);
    if life > 0 {
      SafeTwice(w, w1, Execute(w1, rest, life - 1).0, id, a, blob);
    }
    hide Safe, Ready, At, InCustody;
  }

  /** Setting the phase, when everything it stands for has happened. */
  lemma EntryTurn(w: World, id: CommandId, a: ArtifactId, blob: BlobId, p: Phase, forgetting: bool, life: nat)
    requires !p.Complete? && Ready(w, id, a, blob, p, forgetting)
    requires Rank(Next(p)) >= 2 ==> blob in w.tombstoned
    requires Rank(Next(p)) >= 4 ==> Gone(w, a)
    ensures TurnEnds(w, Execute(w, [SetPhase(id, Next(p), EventOf(Next(p), id, a, forgetting))], life),
                     id, a, blob, Next(p), forgetting, life, 1)
  {
    var e := SetPhase(id, Next(p), EventOf(Next(p), id, a, forgetting));
    EntryIsSafe(w, id, a, blob, p, forgetting);
    SafeHere(w, id, a, blob);
    hide Apply, Safe, Ready, EventOf;
    ExecuteFirst(w, e, [], life);
    assert [e] + [] == [e];
  }

  lemma TombstoneTurn(w: World, id: CommandId, a: ArtifactId, blob: BlobId, life: nat)
    requires Ready(w, id, a, blob, ApiVetoActive, true)
    ensures TurnEnds(w, Execute(w, Enter(TombstoneActive, id, a, blob, true), life), id, a, blob, TombstoneActive,
                     true, life, 2)
  {
    var last := [SetPhase(id, TombstoneActive, EventOf(TombstoneActive, id, a, true))];
    TombstoneIsSafe(w, id, a, blob, ApiVetoActive, true);
    SafeHere(w, id, a, blob);
    hide Apply, Safe, Ready, EventOf, TurnEnds;
    if life > 0 {
      EntryTurn(Apply(w, Tombstone(blob)).value, id, a, blob, ApiVetoActive, true, life - 1);
    }
    EffectThenTurn(w, Tombstone(blob), last, id, a, blob, TombstoneActive, true, life, 1);
  }

  lemma RecoveryTurn(w: World, id: CommandId, a: ArtifactId, blob: BlobId, forgetting: bool, life: nat)
    requires Ready(w, id, a, blob, CheckpointCommitted, forgetting)
    requires a in w.platform && w.platform[a].Destroyed?
    ensures var p := RevocationKeysDestroyed;
            TurnEnds(w, Execute(w, [DestroyRecovery(a)] + [SetPhase(id, p, EventOf(p, id, a, forgetting))], life),
                     id, a, blob, p, forgetting, life, 2)
  {
    var last := [SetPhase(id, RevocationKeysDestroyed, EventOf(RevocationKeysDestroyed, id, a, forgetting))];
    DestroyRecoveryIsSafe(w, id, a, blob, CheckpointCommitted, forgetting);
    SafeHere(w, id, a, blob);
    hide Apply, Safe, EventOf;
    if a !in w.recovery {
      ExecuteFirst(w, DestroyRecovery(a), last, life);
    } else {
      hide TurnEnds;
      if life > 0 {
        EntryTurn(Apply(w, DestroyRecovery(a)).value, id, a, blob, CheckpointCommitted, forgetting, life - 1);
      }
      EffectThenTurn(w, DestroyRecovery(a), last, id, a, blob, RevocationKeysDestroyed, forgetting, life, 1);
    }
  }

  lemma DestroyTurn(w: World, id: CommandId, a: ArtifactId, blob: BlobId, forgetting: bool, life: nat)
    requires Ready(w, id, a, blob, CheckpointCommitted, forgetting)
    ensures var p := RevocationKeysDestroyed;
            TurnEnds(w, Execute(w, Enter(p, id, a, blob, forgetting), life), id, a, blob, p, forgetting, life, 3)
  {
    var p := RevocationKeysDestroyed;
    var rest := [DestroyRecovery(a)] + [SetPhase(id, p, EventOf(p, id, a, forgetting))];
    assert Enter(p, id, a, blob, forgetting) == [DestroyPlatform(a)] + rest;
    DestroyPlatformIsSafe(w, id, a, blob, CheckpointCommitted, forgetting);
    SafeHere(w, id, a, blob);
    hide Apply, Safe, EventOf, Enter;
    if a !in w.platform {
      ExecuteFirst(w, DestroyPlatform(a), rest, life);
    } else {
      hide TurnEnds;
      if life > 0 {
        RecoveryTurn(Apply(w, DestroyPlatform(a)).value, id, a, blob, forgetting, life - 1);
      }
      EffectThenTurn(w, DestroyPlatform(a), rest, id, a, blob, p, forgetting, life, 2);
    }
  }

  lemma TurnIsSafe(w: World, id: CommandId, a: ArtifactId, blob: BlobId, p: Phase, forgetting: bool, life: nat)
    requires !p.Complete? && Ready(w, id, a, blob, p, forgetting)
    ensures TurnEnds(w, Execute(w, Enter(Next(p), id, a, blob, forgetting), life), id, a, blob, Next(p), forgetting,
                     life,
                     |Enter(Next(p), id, a, blob, forgetting)|)
  {
    hide Safe, TurnEnds;
    if p.ApiVetoActive? && forgetting {
      TombstoneTurn(w, id, a, blob, life);
    } else if p.CheckpointCommitted? {
      DestroyTurn(w, id, a, blob, forgetting, life);
    } else {
      assert Enter(Next(p), id, a, blob, forgetting) == [SetPhase(id, Next(p), EventOf(Next(p), id, a, forgetting))];
      EntryTurn(w, id, a, blob, p, forgetting, life);
    }
  }

  // ----------------------------------------------------------------------- drives

  /** How the rest of a deletion, from phase `p`, may end: complete if both key stores hold
      the artifact's key, held before key destruction if one does not, or anywhere in
      between if the process dies. */
  ghost predicate DriveEnds(w: World, r: (World, Outcome), id: CommandId, a: ArtifactId, blob: BlobId, p: Phase,
                            life: nat, steps: nat)
  {
    && Safe(w, r.0, id, a, blob)
    && (r.1.Done? ==> At(r.0, id, a, Complete) && (Rank(p) < 4 ==> InCustody(w, a)))
    && (r.1.Failed? ==> Rank(p) < 4 && At(r.0, id, a, CheckpointCommitted) && !InCustody(w, a))
    && (r.1.Crashed? ==> life < steps)
  }

  lemma NothingLeft(w: World, id: CommandId, a: ArtifactId, blob: BlobId, forgetting: bool, life: nat)
    requires Ready(w, id, a, blob, Complete, forgetting)
    ensures DriveEnds(w, (w, Done), id, a, blob, Complete, life, 0)
  {
    SafeHere(w, id, a, blob);
    hide Safe;
  }

  lemma TurnThenDrive(w: World, turn: (World, Outcome), rest: (World, Outcome), id: CommandId, a: ArtifactId,
                      blob: BlobId, p: Phase, forgetting: bool, life: nat, steps: nat, more: nat)
    requires !p.Complete? && TurnEnds(w, turn, id, a, blob, Next(p), forgetting, life, steps)
    requires turn.1.Done? ==> life >= steps && DriveEnds(turn.0, rest, id, a, blob, Next(p), life - steps, more)
    ensures DriveEnds(w, if turn.1.Done? then rest else turn, id, a, blob, p, life, steps + more)
  {
    SameCustody(w, turn.0, id, a, blob);
    if turn.1.Done? {
      SafeTwice(w, turn.0, rest.0, id, a, blob);
    }
    hide Safe, Ready, At, InCustody;
  }

  lemma {:induction false} DriveIsSafe(w: World, id: CommandId, a: ArtifactId, blob: BlobId, p: Phase,
                                       forgetting: bool, life: nat)
    requires Ready(w, id, a, blob, p, forgetting)
    ensures DriveEnds(w, Execute(w, Drive(p, id, a, blob, forgetting), life), id, a, blob, p, life,
                      |Drive(p, id, a, blob, forgetting)|)
    decreases 7 - Rank(p)
  {
    hide Safe, Enter, DriveEnds, Kept;
    if p.Complete? {
      NothingLeft(w, id, a, blob, forgetting, life);
    } else {
      var turn := Enter(Next(p), id, a, blob, forgetting);
      var rest := Drive(Next(p), id, a, blob, forgetting);
      TurnIsSafe(w, id, a, blob, p, forgetting, life);
      ExecuteBoth(w, turn, rest, life);
      var middle := Execute(w, turn, life);
      if middle.1.Done? {
        DriveIsSafe(middle.0, id, a, blob, Next(p), forgetting, life - |turn|);
      }
      TurnThenDrive(w, middle, Execute(middle.0, rest, if life >= |turn| then life - |turn| else 0), id, a, blob, p,
                    forgetting, life, |turn|, |rest|);
    }
  }

  // ------------------------------------------------------------ forgetting, resuming

  /** How forgetting may end once the request is recorded. */
  ghost predicate ForgetEnds(w: World, r: (World, Outcome), id: CommandId, a: ArtifactId, blob: BlobId, life: nat,
                             steps: nat)
  {
    && Forward(w, r.0) && Kept(r.0, id, blob) && r.0.deletions[id].artifact == a
    && r.0.deletions == w.deletions[id := r.0.deletions[id]] && r.0.custody == w.custody && r.0.artifacts == w.artifacts
    && (r.1.Done? ==> r.0.deletions[id].phase.Complete? && InCustody(w, a))
    && (r.1.Failed? ==> r.0.deletions[id].phase.CheckpointCommitted? && !InCustody(w, a))
    && (r.1.Crashed? ==> life < steps)
  }

  lemma RequestIsSafe(w: World, id: CommandId, a: ArtifactId, blob: BlobId)
    requires id !in w.commands && id !in w.deletions && a in w.artifacts
    ensures var next := Apply(w, Request(id, a));
            && next.Some? && Forward(w, next.value) && Ready(next.value, id, a, blob, Requested, true)
            && next.value.platform == w.platform && next.value.recovery == w.recovery
            && next.value.custody == w.custody && next.value.artifacts == w.artifacts
            && next.value.deletions == w.deletions[id := Deletion(a, Requested)]
  {
  }

  lemma FromRequest(w: World, requested: World, r: (World, Outcome), id: CommandId, a: ArtifactId, blob: BlobId,
                    life: nat, steps: nat)
    requires Forward(w, requested) && DriveEnds(requested, r, id, a, blob, Requested, life, steps)
    requires requested.platform == w.platform && requested.recovery == w.recovery
    requires requested.custody == w.custody && requested.artifacts == w.artifacts
    requires requested.deletions == w.deletions[id := Deletion(a, Requested)]
    ensures ForgetEnds(w, r, id, a, blob, life + 1, steps + 1)
  {
    SafeIsForward(requested, r.0, id, a, blob);
    ForwardTwice(w, requested, r.0);
    assert r.0.deletions == w.deletions[id := r.0.deletions[id]];
    hide Forward;
  }

  /** Forgetting, at whatever point it dies. */
  lemma ForgetIsSafe(w: World, id: CommandId, a: ArtifactId, blob: BlobId, life: nat)
    ensures var r := Execute(w, ForgetScript(id, a, blob), life);
            if life == 0 then r == (w, Crashed)
            else if id in w.commands || id in w.deletions || a !in w.artifacts then r == (w, Failed)
            else ForgetEnds(w, r, id, a, blob, life, |ForgetScript(id, a, blob)|)
  {
    hide Ready, Drive, Forward, ForgetEnds, DriveEnds;
    var script := Drive(Requested, id, a, blob, true);
    ExecuteFirst(w, Request(id, a), script, life);
    if life > 0 && id !in w.commands && id !in w.deletions && a in w.artifacts {
      RequestIsSafe(w, id, a, blob);
      var requested := Apply(w, Request(id, a)).value;
      hide Apply;
      DriveIsSafe(requested, id, a, blob, Requested, true, life - 1);
      FromRequest(w, requested, Execute(requested, script, life - 1), id, a, blob, life - 1, |script|);
    }
  }

  /** How resuming may end: without a crash it completes exactly when the keys are destroyed
      already or both key stores have an entry, and is held before key destruction otherwise. */
  ghost predicate ResumeEnds(w: World, r: (World, Outcome), id: CommandId, a: ArtifactId, blob: BlobId, life: nat,
                             steps: nat)
  {
    && Safe(w, r.0, id, a, blob) && id in w.deletions
    && (r.1.Done? ==> r.0.deletions[id].phase.Complete?)
    && (r.1.Failed? ==> r.0.deletions[id].phase.CheckpointCommitted? && blob in r.0.tombstoned)
    && (life >= steps ==> (r.1.Done? <==> Rank(w.deletions[id].phase) >= 4 || InCustody(w, a)))
    && (r.1.Crashed? ==> life < steps)
  }

  lemma DriveResumes(w: World, r: (World, Outcome), id: CommandId, a: ArtifactId, blob: BlobId, p: Phase, life: nat,
                     steps: nat)
    requires At(w, id, a, p) && DriveEnds(w, r, id, a, blob, p, life, steps)
    ensures ResumeEnds(w, r, id, a, blob, life, steps)
  {
    hide InCustody;
  }

  lemma AfterTombstone(w: World, w1: World, r: (World, Outcome), id: CommandId, a: ArtifactId, blob: BlobId, life: nat,
                       steps: nat)
    requires Safe(w, w1, id, a, blob) && w1.deletions == w.deletions
    requires ResumeEnds(w1, r, id, a, blob, life, steps)
    ensures ResumeEnds(w, r, id, a, blob, life + 1, steps + 1)
  {
    SafeTwice(w, w1, r.0, id, a, blob);
    SameCustody(w, w1, id, a, blob);
    hide Safe;
  }

  lemma DiesAtOnce(w: World, id: CommandId, a: ArtifactId, blob: BlobId, steps: nat)
    requires Kept(w, id, blob) && w.deletions[id].artifact == a && steps > 0
    ensures ResumeEnds(w, (w, Crashed), id, a, blob, 0, steps)
  {
    SafeHere(w, id, a, blob);
    hide Safe;
  }

  lemma TombstoneThenDrive(w: World, id: CommandId, a: ArtifactId, blob: BlobId, p: Phase, life: nat)
    requires At(w, id, a, p) && Kept(w, id, blob)
    ensures ResumeEnds(w, Execute(w, [Tombstone(blob)] + Drive(p, id, a, blob, false), life), id, a, blob, life,
                       |Drive(p, id, a, blob, false)| + 1)
  {
    hide Safe, Ready, Drive, ResumeEnds, DriveEnds, Kept;
    var rest := Drive(p, id, a, blob, false);
    var w1 := w.(tombstoned := w.tombstoned + {blob});
    ExecuteFirst(w, Tombstone(blob), rest, life);
    if life == 0 {
      DiesAtOnce(w, id, a, blob, |rest| + 1);
    } else {
      TombstoneIsSafe(w, id, a, blob, p, false);
      DriveIsSafe(w1, id, a, blob, p, false, life - 1);
      DriveResumes(w1, Execute(w1, rest, life - 1), id, a, blob, p, life - 1, |rest|);
      AfterTombstone(w, w1, Execute(w1, rest, life - 1), id, a, blob, life - 1, |rest|);
    }
  }

  /** Resuming, at whatever point it dies. */
  lemma ResumeIsSafe(w: World, id: CommandId, a: ArtifactId, blob: BlobId, life: nat)
    requires Kept(w, id, blob) && w.deletions[id].artifact == a
    ensures var script := ResumeScript(w, id, a, blob);
            ResumeEnds(w, Execute(w, script, life), id, a, blob, life, |script|)
  {
    var p := w.deletions[id].phase;
    var rest := Drive(p, id, a, blob, false);
    if p.Complete? {
      SafeHere(w, id, a, blob);
      hide Safe;
      assert ResumeScript(w, id, a, blob) == [];
    } else if blob in w.tombstoned {
      assert Ready(w, id, a, blob, p, false);
      hide Safe, Ready, Drive, ResumeEnds;
      assert [] + rest == rest;
      DriveIsSafe(w, id, a, blob, p, false, life);
      DriveResumes(w, Execute(w, rest, life), id, a, blob, p, life, |rest|);
    } else {
      hide Safe, Ready, Drive, ResumeEnds;
      TombstoneThenDrive(w, id, a, blob, p, life);
    }
  }
}
