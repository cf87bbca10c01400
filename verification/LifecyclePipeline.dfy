/**
 The pipeline as the object it is, with its database tables, blob store and key stores as
 fields.  Every call takes the number of durable effects its process lives for, and is tied
 to the script of the model.
 */
module LifecyclePipeline {
  import opened Options
  import D = Deletion
  import S = DeletionSafety
  import R = DeletionRuns

  datatype Refusal =
    | Vetoed | NotFound | RequestRefused | ArkDestroyFailed | Died | NotActivated | NotRestored | NotRemembered

  class Pipeline {
    var artifacts: map<D.ArtifactId, D.RevisionId>
    var custody: map<D.ArtifactId, D.Custody>
    var commands: set<D.CommandId>
    var deletions: map<D.CommandId, D.Deletion>
    var events: seq<D.Event>
    var blobs: map<D.BlobId, D.RevisionId>
    var tombstoned: set<D.BlobId>
    var platform: map<D.ArtifactId, D.Entry>
    var recovery: map<D.ArtifactId, D.Entry>

    function View(): D.World
      reads this
    {
      D.World(artifacts, custody, commands, deletions, events, blobs, tombstoned, platform, recovery)
    }

    constructor ()
      ensures View() == D.World(map[], map[], {}, map[], [], map[], {}, map[], map[])
    {
      artifacts, custody, commands, deletions, events := map[], map[], {}, map[], [];
      blobs, tombstoned, platform, recovery := map[], {}, map[], map[];
    }

    /** A create-only store accepts a new key or the same one again. */
    static method CreateOnly(store: map<D.ArtifactId, D.Entry>, a: D.ArtifactId, dek: nat)
      returns (ok: bool, after: map<D.ArtifactId, D.Entry>)
      ensures D.CreateOnly(store, a, dek) == if ok then Some(after) else None
    {
      if a !in store { return true, store[a := D.Wrapped(dek)]; }
      if store[a].Destroyed? { return false, store; }
      ok, after := store[a].dek == dek, store;
    }

    /** Registers the artifact's key with one custodian after the other. */
    method RegisterArtifactArk(a: D.ArtifactId, dek: nat, life: nat) returns (o: D.Outcome)
      modifies this`platform, this`recovery
      ensures D.Execute(old(View()), [D.CreatePlatform(a, dek)] + [D.CreateRecovery(a, dek)], life) == (View(), o)
      ensures o.Done? ==> D.InCustody(View(), a)
    {
      S.ExecuteFirst(View(), D.CreatePlatform(a, dek), [D.CreateRecovery(a, dek)], life);
      if life == 0 { return D.Crashed; }
      var ok, after := CreateOnly(platform, a, dek);
      if !ok { return D.Failed; }
      platform := after;
      S.ExecuteFirst(View(), D.CreateRecovery(a, dek), [], life - 1);
      assert [D.CreateRecovery(a, dek)] == [D.CreateRecovery(a, dek)] + [];
      if life == 1 { return D.Crashed; }
      ok, after := CreateOnly(recovery, a, dek);
      if !ok { return D.Failed; }
      recovery := after;
      o := D.Done;
    }

    /** The transaction that records a remembered artifact. */
    method InsertArtifact(command: D.CommandId, a: D.ArtifactId, revision: D.RevisionId) returns (ok: bool)
      modifies this
      ensures D.Apply(old(View()), D.Record(command, a, revision)) == if ok then Some(View()) else None
      ensures !ok ==> View() == old(View())
    {
      ok := command !in commands && a !in artifacts;
      if ok {
        commands, artifacts, custody := commands + {command}, artifacts[a := revision], custody[a := D.Prepared];
        events := events + [D.Event(D.RememberAccepted, command)];
      }
    }

    method PutBlob(blob: D.BlobId, revision: D.RevisionId)
      modifies this`blobs
      ensures D.Apply(old(View()), D.PutBlob(blob, revision)) == Some(View())
    {
      blobs := blobs[blob := revision];
    }

    /** The blob first, then one transaction, then the two custodians; a process that dies
        before the last leaves an artifact whose deletion cannot complete. */
    method Remember(command: D.CommandId, a: D.ArtifactId, revision: D.RevisionId, blob: D.BlobId, dek: nat, life: nat)
      returns (r: Result<(), Refusal>)
      modifies this
      ensures View() == R.Perform(old(View()), R.Remember(command, a, revision, blob, dek, life))
      ensures r.Ok? ==> D.InCustody(View(), a)
    {
      ghost var keys := [D.CreatePlatform(a, dek)] + [D.CreateRecovery(a, dek)];
      ghost var rest := [D.Record(command, a, revision)] + keys;
      assert R.RememberScript(command, a, revision, blob, dek) == [D.PutBlob(blob, revision)] + rest;
      hide D.Apply, D.InCustody;
      S.ExecuteFirst(View(), D.PutBlob(blob, revision), rest, life);
      if life == 0 { return Err(Died); }
      PutBlob(blob, revision);
      S.ExecuteFirst(View(), D.Record(command, a, revision), keys, life - 1);
      if life == 1 { return Err(Died); }
      var ok := InsertArtifact(command, a, revision);
      if !ok { return Err(NotRemembered); }
      var o := RegisterArtifactArk(a, dek, life - 2);
      r := if o.Done? then Ok(()) else if o.Crashed? then Err(Died) else Err(NotRemembered);
    }

    /** True once the artifact has a deletion row, in any phase. */
    method IsObjectVetoed(a: D.ArtifactId) returns (vetoed: bool)
      ensures vetoed <==> D.Vetoed(View(), a)
    {
      var left := deletions.Keys;
      while left != {}
        invariant left <= deletions.Keys
        invariant forall id :: id in deletions && id !in left ==> deletions[id].artifact != a
        decreases left
      {
        var id :| id in left;
        if deletions[id].artifact == a { return true; }
        left := left - {id};
      }
      vetoed := false;
    }

    /** The request's transaction: the command, the deletion row and the event. */
    method InsertRequest(id: D.CommandId, a: D.ArtifactId) returns (ok: bool)
      modifies this
      ensures D.Apply(old(View()), D.Request(id, a)) == if ok then Some(View()) else None
      ensures !ok ==> View() == old(View())
    {
      ok := id !in commands && id !in deletions && a in artifacts;
      if ok {
        commands := commands + {id};
        deletions := deletions[id := D.Deletion(a, D.Requested)];
        events := events + [D.Event(D.ForgetRequested, id)];
      }
    }

    /** Sets the phase, and logs the event if the phase has one, in one transaction. */
    method AdvanceDeletionPhase(id: D.CommandId, phase: D.Phase, event: Option<D.Event>)
      modifies this
      ensures D.Apply(old(View()), D.SetPhase(id, phase, event)) == Some(View())
    {
      if id in deletions {
        deletions := deletions[id := deletions[id].(phase := phase)];
      }
      if event.Some? {
        events := events + [event.value];
      } else {
        assert events + [] == events;
      }
    }

    method TombstoneBlob(blob: D.BlobId)
      modifies this`tombstoned
      ensures D.Apply(old(View()), D.Tombstone(blob)) == Some(View())
      ensures View() == old(View()).(tombstoned := old(tombstoned) + {blob})
    {
      tombstoned := tombstoned + {blob};
    }

    method DestroyPlatform(a: D.ArtifactId) returns (ok: bool)
      modifies this`platform
      ensures D.Apply(old(View()), D.DestroyPlatform(a)) == if ok then Some(View()) else None
      ensures !ok ==> View() == old(View())
    {
      ok := a in platform;
      if ok { platform := platform[a := D.Destroyed]; }
    }

    method DestroyRecovery(a: D.ArtifactId) returns (ok: bool)
      modifies this`recovery
      ensures D.Apply(old(View()), D.DestroyRecovery(a)) == if ok then Some(View()) else None
      ensures !ok ==> View() == old(View())
    {
      ok := a in recovery;
      if ok { recovery := recovery[a := D.Destroyed]; }
    }

    /** Enters one phase, with what has to happen before it. */
    method EnterPhase(phase: D.Phase, id: D.CommandId, a: D.ArtifactId, blob: D.BlobId, forgetting: bool, life: nat)
      returns (o: D.Outcome, left: nat)
      modifies this
      ensures D.Execute(old(View()), D.Enter(phase, id, a, blob, forgetting), life) == (View(), o)
      ensures o.Done? ==> left + |D.Enter(phase, id, a, blob, forgetting)| == life
    {
      ghost var script := D.Enter(phase, id, a, blob, forgetting);
      var event := D.EventOf(phase, id, a, forgetting);
      ghost var last := [D.SetPhase(id, phase, event)];
      left := life;
      if phase.TombstoneActive? && forgetting {
        S.ExecuteFirst(View(), D.Tombstone(blob), last, left);
        if left == 0 { return D.Crashed, left; }
        TombstoneBlob(blob);
        left := left - 1;
      } else if phase.RevocationKeysDestroyed? {
        S.ExecuteFirst(View(), D.DestroyPlatform(a), [D.DestroyRecovery(a)] + last, left);
        assert script == [D.DestroyPlatform(a)] + ([D.DestroyRecovery(a)] + last);
        if left == 0 { return D.Crashed, left; }
        var ok := DestroyPlatform(a);
        if !ok { return D.Failed, left; }
        left := left - 1;
        S.ExecuteFirst(View(), D.DestroyRecovery(a), last, left);
        if left == 0 { return D.Crashed, left; }
        ok := DestroyRecovery(a);
        if !ok { return D.Failed, left; }
        left := left - 1;
      } else {
        assert script == last;
      }
      S.ExecuteFirst(View(), D.SetPhase(id, phase, event), [], left);
      assert last == last + [];
      if left == 0 { return D.Crashed, left; }
      AdvanceDeletionPhase(id, phase, event);
      o, left := D.Done, left - 1;
    }

    /** Advances to `target`, which must be the immediate successor, as it always is here. */
    method TakePhase(current: D.Phase, target: D.Phase, id: D.CommandId, a: D.ArtifactId, blob: D.BlobId,
                     forgetting: bool, life: nat)
      returns (o: D.Outcome, left: nat)
      requires D.Advance(current, target) == Some(target)
      modifies this
      ensures D.Execute(old(View()), D.Drive(current, id, a, blob, forgetting), life) ==
              if o.Done? then D.Execute(View(), D.Drive(target, id, a, blob, forgetting), left) else (View(), o)
    {
      assert target == D.Next(current);
      assert D.Drive(current, id, a, blob, forgetting) ==
             D.Enter(target, id, a, blob, forgetting) + D.Drive(target, id, a, blob, forgetting);
      hide D.Enter, D.Apply, D.Drive, D.Execute;
      D.ExecuteBoth(View(), D.Enter(target, id, a, blob, forgetting), D.Drive(target, id, a, blob, forgetting), life);
      o, left := EnterPhase(target, id, a, blob, forgetting, life);
    }

    /** How the call reports the outcome of its script. */
    static predicate Reports(r: Result<D.Phase, Refusal>, o: D.Outcome) {
      match o
      case Done => r == Ok(D.Complete)
      case Crashed => r == Err(Died)
      case Failed => r == Err(ArkDestroyFailed) || r == Err(RequestRefused)
    }

    method Forget(id: D.CommandId, a: D.ArtifactId, blob: D.BlobId, life: nat) returns (r: Result<D.Phase, Refusal>)
      modifies this
      ensures View() == R.Perform(old(View()), R.Forget(id, a, blob, life))
      ensures if D.Vetoed(old(View()), a) then r == Err(Vetoed) && View() == old(View())
              else Reports(r, D.Execute(old(View()), D.ForgetScript(id, a, blob), life).1)
    {
      hide D.Drive, D.Apply, D.Vetoed;
      var vetoed := IsObjectVetoed(a);
      if vetoed { return Err(Vetoed); }
      S.ExecuteFirst(View(), D.Request(id, a), D.Drive(D.Requested, id, a, blob, true), life);
      if life == 0 { return Err(Died); }
      var ok := InsertRequest(id, a);
      if !ok { return Err(RequestRefused); }
      r := AfterRequest(id, a, blob, life - 1);
    }

    /** Forgetting after its first transaction. */
    method AfterRequest(id: D.CommandId, a: D.ArtifactId, blob: D.BlobId, life: nat)
      returns (r: Result<D.Phase, Refusal>)
      modifies this
      ensures View() == D.Execute(old(View()), D.Drive(D.Requested, id, a, blob, true), life).0
      ensures Reports(r, D.Execute(old(View()), D.Drive(D.Requested, id, a, blob, true), life).1)
    {
      var o, left := TakePhase(D.Requested, D.ApiVetoActive, id, a, blob, true, life);
      if o.Done? { o, left := TakePhase(D.ApiVetoActive, D.TombstoneActive, id, a, blob, true, left); }
      if o.Done? { o, left := TakePhase(D.TombstoneActive, D.CheckpointCommitted, id, a, blob, true, left); }
      if o.Done? { o, left := TakePhase(D.CheckpointCommitted, D.RevocationKeysDestroyed, id, a, blob, true, left); }
      if o.Done? { o, left := TakePhase(D.RevocationKeysDestroyed, D.CryptoShredComplete, id, a, blob, true, left); }
      if o.Done? { o, left := TakePhase(D.CryptoShredComplete, D.PurgePending, id, a, blob, true, left); }
      if o.Done? { o, left := TakePhase(D.PurgePending, D.Complete, id, a, blob, true, left); }
      assert D.Drive(D.Complete, id, a, blob, true) == [];
      r := if o.Done? then Ok(D.Complete) else if o.Crashed? then Err(Died) else Err(ArkDestroyFailed);
    }

    method ResumeDeletion(id: D.CommandId, a: D.ArtifactId, blob: D.BlobId, life: nat)
      returns (r: Result<D.Phase, Refusal>)
      modifies this
      ensures View() == R.Perform(old(View()), R.Resume(id, a, blob, life))
      ensures if id !in old(deletions) then r == Err(NotFound)
              else Reports(r, D.Execute(old(View()), D.ResumeScript(old(View()), id, a, blob), life).1)
    {
      if id !in deletions { return Err(NotFound); }
      var current := deletions[id].phase;
      if current.Complete? { return Ok(D.Complete); }
      hide D.Apply, D.Drive, D.Execute;
      var left := life;
      if blob !in tombstoned {
        S.ExecuteTombstone(View(), blob, D.Drive(current, id, a, blob, false), life);
        if left == 0 { return Err(Died); }
        TombstoneBlob(blob);
        left := left - 1;
      } else {
        assert [] + D.Drive(current, id, a, blob, false) == D.Drive(current, id, a, blob, false);
      }
      r := TakeRemaining(current, id, a, blob, left);
    }

    /** The loop over the phases that remain. */
    method TakeRemaining(from: D.Phase, id: D.CommandId, a: D.ArtifactId, blob: D.BlobId, life: nat)
      returns (r: Result<D.Phase, Refusal>)
      modifies this
      ensures View() == D.Execute(old(View()), D.Drive(from, id, a, blob, false), life).0
      ensures Reports(r, D.Execute(old(View()), D.Drive(from, id, a, blob, false), life).1)
    {
      hide D.Apply, D.Enter;
      var current, left := from, life;
      while !current.Complete?
        invariant D.Execute(View(), D.Drive(current, id, a, blob, false), left) ==
                  D.Execute(old(View()), D.Drive(from, id, a, blob, false), life)
        decreases 7 - D.Rank(current)
      {
        var target := D.Next(current);
        var o, rest := TakePhase(current, target, id, a, blob, false, left);
        if !o.Done? { return Err(if o.Crashed? then Died else ArkDestroyFailed); }
        current, left := target, rest;
      }
      r := Ok(D.Complete);
    }

    /** Activation reads the blob back before its one transaction. */
    method ActivateArtifact(a: D.ArtifactId, blob: D.BlobId, serving: bool, life: nat) returns (r: Result<(), Refusal>)
      modifies this
      ensures View() == R.Perform(old(View()), R.Activate(a, blob, serving, life))
      ensures r.Ok? <==> R.MayActivate(old(View()), a, blob, serving) && life > 0
      ensures D.Vetoed(old(View()), a) ==> r == Err(Vetoed) && View() == old(View())
    {
      var vetoed := IsObjectVetoed(a);
      if vetoed { return Err(Vetoed); }
      if !serving { return Err(NotActivated); }
      if blob in tombstoned || blob !in blobs { return Err(NotActivated); }
      var revision := blobs[blob];
      S.ExecuteFirst(View(), D.MakeActive(a, revision), [], life);
      assert [D.MakeActive(a, revision)] + [] == [D.MakeActive(a, revision)];
      if life == 0 { return Err(Died); }
      if a !in artifacts || revision != artifacts[a] { return Err(NotActivated); }
      if a !in custody || custody[a].Active? { return Err(NotActivated); }
      custody := custody[a := D.Active];
      events := events + [D.Event(D.ArtifactActivated, a)];
      r := Ok(());
    }

    /** Restoring logs the recovery decision, and releases visibility in one transaction. */
    method Restore(a: D.ArtifactId, recovered: bool, serving: bool, life: nat) returns (r: Result<(), Refusal>)
      modifies this
      ensures View() == R.Perform(old(View()), R.Restore(a, recovered, serving, life))
      ensures r.Ok? <==> !D.Vetoed(old(View()), a) && recovered && serving && a in old(artifacts) && life > 1
      ensures D.Vetoed(old(View()), a) ==> r == Err(Vetoed) && View() == old(View())
    {
      var vetoed := IsObjectVetoed(a);
      if vetoed { return Err(Vetoed); }
      ghost var release := if recovered && serving then [D.Release(a)] else [];
      S.ExecuteFirst(View(), D.Log(D.RecoveryDecided), release, life);
      if life == 0 { return Err(Died); }
      events := events + [D.Event(D.RecoveryDecided, 0)];
      if !recovered || !serving { return Err(NotRestored); }
      S.ExecuteFirst(View(), D.Release(a), [], life - 1);
      assert release == [D.Release(a)] + [];
      if life == 1 { return Err(Died); }
      if a !in artifacts { return Err(NotRestored); }
      custody := custody[a := D.Active];
      events := events + [D.Event(D.ArtifactRestored, a)];
      r := Ok(());
    }
  }
}
