/**
 Deletion of an artifact: a forward-only phase machine whose steps are durable effects in
 three places, the database, the blob store and two key stores.  A process may die between
 any two effects.
 */
module Deletion {
  import opened Options

  type ArtifactId = nat
  type CommandId = nat
  type BlobId = nat
  type RevisionId = nat

  datatype Phase =
    | Requested | ApiVetoActive | TombstoneActive | CheckpointCommitted
    | RevocationKeysDestroyed | CryptoShredComplete | PurgePending | Complete

  function Rank(p: Phase): nat {
    match p
    case Requested => 0
    case ApiVetoActive => 1
    case TombstoneActive => 2
    case CheckpointCommitted => 3
    case RevocationKeysDestroyed => 4
    case CryptoShredComplete => 5
    case PurgePending => 6
    case Complete => 7
  }

  /** The phase that follows. */
  function Next(p: Phase): (next: Phase)
    requires !p.Complete?
    ensures Rank(next) == Rank(p) + 1
  {
    match p
    case Requested => ApiVetoActive
    case ApiVetoActive => TombstoneActive
    case TombstoneActive => CheckpointCommitted
    case CheckpointCommitted => RevocationKeysDestroyed
    case RevocationKeysDestroyed => CryptoShredComplete
    case CryptoShredComplete => PurgePending
    case PurgePending => Complete
  }

  /** Only the immediate successor is a legal target. */
  function Advance(current: Phase, target: Phase): Option<Phase> {
    if Rank(target) == Rank(current) + 1 then Some(target) else None
  }

  datatype Custody = Prepared | Approved | Active

  /** One custodian's entry for an artifact's key. */
  datatype Entry = Wrapped(dek: nat) | Destroyed

  datatype Kind =
    | RememberAccepted | ForgetRequested | Reached(phase: Phase) | ResumedComplete
    | ArtifactActivated | ArtifactRestored | RecoveryDecided

  datatype Event = Event(kind: Kind, ref: nat)

  datatype Deletion = Deletion(artifact: ArtifactId, phase: Phase)

  datatype World = World(
    artifacts: map<ArtifactId, RevisionId>,
    custody: map<ArtifactId, Custody>,
    commands: set<CommandId>,
    deletions: map<CommandId, Deletion>,
    events: seq<Event>,
    blobs: map<BlobId, RevisionId>,
    tombstoned: set<BlobId>,
    platform: map<ArtifactId, Entry>,
    recovery: map<ArtifactId, Entry>)

  /** One durable, atomic change.  `MakeActive` and `Release` are the transactions that end
      an activation, for the revision read back from the blob, and a restoration. */
  datatype Effect =
    | PutBlob(blob: BlobId, revision: RevisionId)
    | Record(command: CommandId, artifact: ArtifactId, revision: RevisionId)
    | CreatePlatform(artifact: ArtifactId, dek: nat)
    | CreateRecovery(artifact: ArtifactId, dek: nat)
    | Request(command: CommandId, artifact: ArtifactId)
    | SetPhase(command: CommandId, phase: Phase, event: Option<Event>)
    | Tombstone(blob: BlobId)
    | DestroyPlatform(artifact: ArtifactId)
    | DestroyRecovery(artifact: ArtifactId)
    | MakeActive(artifact: ArtifactId, revision: RevisionId)
    | Release(artifact: ArtifactId)
    | Log(kind: Kind)

  /** A create-only store: the same key again is accepted, another one or one that was
      destroyed is refused. */
  function CreateOnly(store: map<ArtifactId, Entry>, a: ArtifactId, dek: nat): Option<map<ArtifactId, Entry>> {
    if a !in store then Some(store[a := Wrapped(dek)])
    else if store[a] == Wrapped(dek) then Some(store)
    else None
  }

  /** Destroying is idempotent, and fails without an entry. */
  function Destroy(store: map<ArtifactId, Entry>, a: ArtifactId): Option<map<ArtifactId, Entry>> {
    if a in store then Some(store[a := Destroyed]) else None
  }

  /** The effect of `e`, unless the store or the database refuses it. */
  function Apply(w: World, e: Effect): Option<World> {
    match e
    case PutBlob(blob, revision) => Some(w.(blobs := w.blobs[blob := revision]))
    case Record(command, a, revision) =>
      if command in w.commands || a in w.artifacts then None
      else Some(w.(commands := w.commands + {command}, artifacts := w.artifacts[a := revision],
                   custody := w.custody[a := Prepared], events := w.events + [Event(RememberAccepted, command)]))
    case CreatePlatform(a, dek) =>
      (match CreateOnly(w.platform, a, dek) case None => None case Some(store) => Some(w.(platform := store)))
    case CreateRecovery(a, dek) =>
      (match CreateOnly(w.recovery, a, dek) case None => None case Some(store) => Some(w.(recovery := store)))
    case Request(command, a) =>
      if command in w.commands || command in w.deletions || a !in w.artifacts then None
      else Some(w.(commands := w.commands + {command}, deletions := w.deletions[command := Deletion(a, Requested)],
                   events := w.events + [Event(ForgetRequested, command)]))
    case SetPhase(command, phase, event) =>
      var logged := w.(events := w.events + if event.Some? then [event.value] else []);
      Some(if command in w.deletions
           then logged.(deletions := w.deletions[command := w.deletions[command].(phase := phase)])
           else logged)
    case Tombstone(blob) => Some(w.(tombstoned := w.tombstoned + {blob}))
    case DestroyPlatform(a) =>
      (match Destroy(w.platform, a) case None => None case Some(store) => Some(w.(platform := store)))
    case DestroyRecovery(a) =>
      (match Destroy(w.recovery, a) case None => None case Some(store) => Some(w.(recovery := store)))
    case MakeActive(a, revision) =>
      if a in w.artifacts && w.artifacts[a] == revision && a in w.custody && !w.custody[a].Active?
      then Some(w.(custody := w.custody[a := Active], events := w.events + [Event(ArtifactActivated, a)]))
      else None
    case Release(a) =>
      if a !in w.artifacts then None
      else Some(w.(custody := w.custody[a := Active], events := w.events + [Event(ArtifactRestored, a)]))
    case Log(kind) => Some(w.(events := w.events + [Event(kind, 0)]))
  }

  datatype Outcome = Done | Crashed | Failed

  /** Runs the effects in order; the process dies after `life` of them. */
  function Execute(w: World, script: seq<Effect>, life: nat): (World, Outcome)
    decreases |script|
  {
    if script == [] then (w, Done)
    else if life == 0 then (w, Crashed)
    else match Apply(w, script[0])
      case None => (w, Failed)
      case Some(next) => Execute(next, script[1..], life - 1)
  }

  // ----------------------------------------------------------------- the scripts

  /** The event that goes with entering phase `p`; a checkpoint is referred to by its artifact. */
  function EventOf(p: Phase, id: CommandId, a: ArtifactId, forgetting: bool): Option<Event> {
    if forgetting then (if p.PurgePending? then None else Some(Event(Reached(p), if p.Complete? then id else a)))
    else if p.Complete? then Some(Event(ResumedComplete, id))
    else None
  }

  /** What must happen to enter phase `p`. */
  function Enter(p: Phase, id: CommandId, a: ArtifactId, blob: BlobId, forgetting: bool): seq<Effect> {
    (if p.TombstoneActive? && forgetting then [Tombstone(blob)]
     else if p.RevocationKeysDestroyed? then [DestroyPlatform(a), DestroyRecovery(a)]
     else []) +
    [SetPhase(id, p, EventOf(p, id, a, forgetting))]
  }

  /** The rest of a deletion that has reached phase `p`. */
  function Drive(p: Phase, id: CommandId, a: ArtifactId, blob: BlobId, forgetting: bool): seq<Effect>
    decreases 7 - Rank(p)
  {
    if p.Complete? then []
    else Enter(Next(p), id, a, blob, forgetting) + Drive(Next(p), id, a, blob, forgetting)
  }

  function ForgetScript(id: CommandId, a: ArtifactId, blob: BlobId): seq<Effect> {
    [Request(id, a)] + Drive(Requested, id, a, blob, true)
  }

  /** Resuming tombstones the blob, unless it is, and takes every remaining phase. */
  function ResumeScript(w: World, id: CommandId, a: ArtifactId, blob: BlobId): seq<Effect>
    requires id in w.deletions
  {
    var p := w.deletions[id].phase;
    if p.Complete? then []
    else (if blob in w.tombstoned then [] else [Tombstone(blob)]) + Drive(p, id, a, blob, false)
  }

  predicate Vetoed(w: World, a: ArtifactId) {
    exists id :: id in w.deletions && w.deletions[id].artifact == a
  }

  // ------------------------------------------------------------------ invariants

  ghost predicate Gone(w: World, a: ArtifactId) {
    a in w.platform && w.platform[a].Destroyed? && a in w.recovery && w.recovery[a].Destroyed?
  }

  ghost predicate InCustody(w: World, a: ArtifactId) {
    a in w.platform && a in w.recovery
  }

  /** What deletion `id` of blob `blob` has done by the time it claims a phase. */
  ghost predicate Kept(w: World, id: CommandId, blob: BlobId) {
    && id in w.deletions
    && (Rank(w.deletions[id].phase) >= 2 ==> blob in w.tombstoned)
    && (Rank(w.deletions[id].phase) >= 4 ==> Gone(w, w.deletions[id].artifact))
  }

  ghost predicate StoreForward(before: map<ArtifactId, Entry>, after: map<ArtifactId, Entry>) {
    before.Keys <= after.Keys && forall a :: a in before && before[a].Destroyed? ==> after[a].Destroyed?
  }

  /** Nothing that was deleted comes back: deletions stay and only advance, tombstones stay,
      destroyed keys stay destroyed. */
  ghost predicate Forward(v: World, w: World) {
    && v.deletions.Keys <= w.deletions.Keys
    && (forall id :: id in v.deletions ==>
          w.deletions[id].artifact == v.deletions[id].artifact &&
          Rank(v.deletions[id].phase) <= Rank(w.deletions[id].phase))
    && v.tombstoned <= w.tombstoned
    && StoreForward(v.platform, w.platform) && StoreForward(v.recovery, w.recovery)
    && v.events <= w.events
  }

  lemma ForwardTwice(u: World, v: World, w: World)
    requires Forward(u, v) && Forward(v, w)
    ensures Forward(u, w)
  {
  }

  lemma {:induction false} ExecuteBoth(w: World, s: seq<Effect>, t: seq<Effect>, life: nat)
    ensures var (w1, o1) := Execute(w, s, life);
            Execute(w, s + t, life) ==
            if o1.Done? then Execute(w1, t, if life >= |s| then life - |s| else 0) else (w1, o1)
    ensures Execute(w, s, life).1.Done? ==> life >= |s|
    decreases |s|
  {
    if s == [] {
      assert s + t == t;
    } else {
      assert (s + t)[1..] == s[1..] + t;
      if life > 0 && Apply(w, s[0]).Some? {
        ExecuteBoth(Apply(w, s[0]).value, s[1..], t, life - 1);
      }
    }
  }
}
