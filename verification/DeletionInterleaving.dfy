/**
 Calls that overlap.  Any number of processes run on one workspace; each decides what it will
 do when it starts, from what it reads then, and carries it out effect by effect, between the
 effects of the others.  A process whose effect is refused gives up, and any may die.
 */
module DeletionInterleaving {
  import opened Options
  import opened Deletion
  import opened DeletionSafety
  import opened DeletionRuns

  type Pid = nat

  /** What every process has still to do. */
  datatype State = State(world: World, running: map<Pid, seq<Effect>>)

  /** The life that is written into a call is not looked at: a process dies in a turn of its own. */
  datatype Turn = Start(pid: Pid, op: Op) | Go(pid: Pid) | Die(pid: Pid)

  /** The effect a turn carries out, if it does. */
  function Due(s: State, t: Turn): Option<Effect> {
    if t.Go? && t.pid in s.running && s.running[t.pid] != [] && Apply(s.world, s.running[t.pid][0]).Some?
    then Some(s.running[t.pid][0]) else None
  }

  function Take(s: State, t: Turn): State {
    match t
    case Start(p, op) => if p in s.running then s else s.(running := s.running[p := ScriptOf(s.world, op)])
    case Die(p) => s.(running := s.running - {p})
    case Go(p) =>
      if p !in s.running || s.running[p] == [] then s
      else match Apply(s.world, s.running[p][0])
        case None => s.(running := s.running - {p})
        case Some(next) => State(next, s.running[p := s.running[p][1..]])
  }

  ghost function Schedule(s: State, turns: seq<Turn>): State
    decreases |turns|
  {
    if turns == [] then s else Schedule(Take(s, turns[0]), turns[1..])
  }

  lemma TurnsWorld(s: State, t: Turn)
    ensures Take(s, t).world == match Due(s, t) case None => s.world case Some(e) => Apply(s.world, e).value
  {
  }

  lemma {:induction false} ScheduleBoth(s: State, first: seq<Turn>, then_: seq<Turn>)
    ensures Schedule(s, first + then_) == Schedule(Schedule(s, first), then_)
    decreases |first|
  {
    if first == [] {
      assert first + then_ == then_;
    } else {
      assert (first + then_)[1..] == first[1..] + then_;
      ScheduleBoth(Take(s, first[0]), first[1..], then_);
    }
  }

  // ------------------------------------------------------- calls one after the other

  function Gos(p: Pid, n: nat): seq<Turn> {
    seq(n, _ => Go(p))
  }

  /** A process that goes on alone runs its script; the others wait. */
  lemma {:induction false} Alone(s: State, p: Pid, n: nat)
    requires p in s.running
    ensures var t := Schedule(s, Gos(p, n));
            && t.world == Execute(s.world, s.running[p], n).0
            && t.running - {p} == s.running - {p}
    decreases n
  {
    if n > 0 {
      assert Gos(p, n)[0] == Go(p) && Gos(p, n)[1..] == Gos(p, n - 1);
      var next := Take(s, Go(p));
      hide Apply;
      assert next.running - {p} == s.running - {p};
      if p in next.running {
        Alone(next, p, n - 1);
        if s.running[p] == [] {
          assert Execute(s.world, [], n) == Execute(s.world, [], n - 1) == (s.world, Done);
        }
      } else {
        Idle(next, p, n - 1);
      }
    }
  }

  lemma {:induction false} Idle(s: State, p: Pid, n: nat)
    requires p !in s.running
    ensures Schedule(s, Gos(p, n)) == s
    decreases n
  {
    if n > 0 {
      assert Gos(p, n)[0] == Go(p) && Gos(p, n)[1..] == Gos(p, n - 1);
      Idle(s, p, n - 1);
    }
  }

  function TurnsOf(op: Op): seq<Turn> {
    [Start(0, op)] + (Gos(0, op.life) + [Die(0)])
  }

  function TurnsOfAll(ops: seq<Op>): seq<Turn>
    decreases |ops|
  {
    if ops == [] then [] else TurnsOf(ops[0]) + TurnsOfAll(ops[1..])
  }

  lemma OneCall(w: World, op: Op)
    ensures Schedule(State(w, map[]), TurnsOf(op)) == State(Perform(w, op), map[])
  {
    hide ScriptOf, Execute;
    var started := State(w, map[0 := ScriptOf(w, op)]);
    assert Take(State(w, map[]), Start(0, op)) == started;
    assert TurnsOf(op)[1..] == Gos(0, op.life) + [Die(0)];
    Alone(started, 0, op.life);
    ScheduleBoth(started, Gos(0, op.life), [Die(0)]);
    var gone := Schedule(started, Gos(0, op.life));
    assert gone.running - {0} == map[];
    assert [Die(0)][1..] == [];
  }

  /** A history of calls is a schedule in which none overlaps another. */
  lemma {:induction false} CallsAreSchedules(w: World, ops: seq<Op>)
    ensures Schedule(State(w, map[]), TurnsOfAll(ops)) == State(Run(w, ops), map[])
    decreases |ops|
  {
    if ops != [] {
      OneCall(w, ops[0]);
      ScheduleBoth(State(w, map[]), TurnsOf(ops[0]), TurnsOfAll(ops[1..]));
      hide Perform, TurnsOf;
      CallsAreSchedules(Perform(w, ops[0]), ops[1..]);
    }
  }

  // ------------------------------------------------- what survives every interleaving

  /** Rows of deletions stay with their artifacts, tombstones stay, destroyed keys stay
      destroyed and the log only grows; nothing is said about phases. */
  ghost predicate Lasting(v: World, w: World) {
    && v.deletions.Keys <= w.deletions.Keys
    && (forall id :: id in v.deletions ==> w.deletions[id].artifact == v.deletions[id].artifact)
    && v.tombstoned <= w.tombstoned
    && StoreForward(v.platform, w.platform) && StoreForward(v.recovery, w.recovery)
    && v.events <= w.events
  }

  lemma LastingTwice(u: World, v: World, w: World)
    requires Lasting(u, v) && Lasting(v, w)
    ensures Lasting(u, w)
  {
  }

  lemma ApplyLasts(w: World, e: Effect)
    requires Apply(w, e).Some?
    ensures Lasting(w, Apply(w, e).value)
  {
    if !e.SetPhase? {
      ApplyIsForward(w, e);
      hide Apply;
    }
  }

  lemma TurnLasts(s: State, t: Turn)
    ensures Lasting(s.world, Take(s, t).world)
  {
    TurnsWorld(s, t);
    if Due(s, t).Some? {
      ApplyLasts(s.world, Due(s, t).value);
    }
    hide Apply;
  }

  /** Whatever overlaps, the veto, the tombstones and the destruction of keys are for ever. */
  lemma {:induction false} ScheduleLasts(s: State, turns: seq<Turn>)
    ensures Lasting(s.world, Schedule(s, turns).world)
    decreases |turns|
  {
    if turns != [] {
      TurnLasts(s, turns[0]);
      ScheduleLasts(Take(s, turns[0]), turns[1..]);
      LastingTwice(s.world, Take(s, turns[0]).world, Schedule(s, turns).world);
    }
  }

  lemma DestroyedForever(s: State, turns: seq<Turn>, a: ArtifactId)
    requires Gone(s.world, a)
    ensures var last := Schedule(s, turns).world;
            Gone(last, a) && ReadKey(last.platform, a) == None && ReadKey(last.recovery, a) == None
  {
    ScheduleLasts(s, turns);
  }

  /** No running process makes `a` active. */
  ghost predicate NoneTouches(s: State, a: ArtifactId) {
    forall p :: p in s.running ==> Spares(s.running[p], a)
  }

  lemma TurnSpares(s: State, t: Turn, a: ArtifactId)
    requires Vetoed(s.world, a) && a in s.world.artifacts && NoneTouches(s, a)
    ensures var next := Take(s, t);
            Vetoed(next.world, a) && SameState(s.world, next.world, a) && NoneTouches(next, a)
  {
    TurnLasts(s, t);
    assert Vetoed(Take(s, t).world, a) by {
      var id :| id in s.world.deletions && s.world.deletions[id].artifact == a;
      assert id in Take(s, t).world.deletions;
    }
    if t.Start? {
      VetoedIsSpared(s.world, t.op, a);
    } else if Due(s, t).Some? {
      SpareOne(s.world, Due(s, t).value, a);
    }
    hide Apply, Vetoed, ScriptOf, Lasting;
  }

  /** The veto holds against every interleaving of calls that begin after the request: a
      vetoed artifact's custody changes only by a transaction that was under way before. */
  lemma {:induction false} VetoHoldsInSchedules(s: State, turns: seq<Turn>, a: ArtifactId)
    requires Vetoed(s.world, a) && a in s.world.artifacts && NoneTouches(s, a)
    ensures Vetoed(Schedule(s, turns).world, a) && SameState(s.world, Schedule(s, turns).world, a)
    decreases |turns|
  {
    if turns != [] {
      TurnSpares(s, turns[0], a);
      hide Vetoed, NoneTouches, Take;
      VetoHoldsInSchedules(Take(s, turns[0]), turns[1..], a);
    }
  }

  // ----------------------------------------------------------- what is under way

  lemma TurnKnows(s: State, t: Turn, a: ArtifactId)
    requires a in s.world.artifacts
    ensures Known(s.world, Take(s, t).world, a)
  {
    TurnsWorld(s, t);
    if Due(s, t).Some? {
      KnownAfterOne(s.world, Due(s, t).value, a);
    }
    hide Apply;
  }

  /** Artifacts stay known, and a process that takes no turn has still the same to do. */
  lemma {:induction false} ScheduleWaits(s: State, turns: seq<Turn>, p: Pid, a: ArtifactId)
    requires a in s.world.artifacts && p in s.running && forall t :: t in turns ==> t.pid != p
    ensures var last := Schedule(s, turns);
            Known(s.world, last.world, a) && p in last.running && last.running[p] == s.running[p]
    decreases |turns|
  {
    if turns != [] {
      assert turns[0].pid != p;
      TurnKnows(s, turns[0], a);
      hide Apply, ScriptOf;
      ScheduleWaits(Take(s, turns[0]), turns[1..], p, a);
    }
  }

  /** The veto stops the calls that begin after the request, and only those: an activation that
      passed its checks before commits, whatever other processes have done since, unless one
      of them has activated the artifact. */
  lemma ActivationUnderWay(s: State, turns: seq<Turn>, p: Pid, a: ArtifactId, revision: RevisionId)
    requires p in s.running && s.running[p] == [MakeActive(a, revision)] && forall t :: t in turns ==> t.pid != p
    requires a in s.world.artifacts && s.world.artifacts[a] == revision && a in s.world.custody
    ensures var last := Schedule(s, turns);
            a in last.world.custody && (Due(last, Go(p)).Some? <==> !last.world.custody[a].Active?)
  {
    ScheduleWaits(s, turns, p, a);
  }

  /** A call that may activate has come that far when it has started. */
  lemma ActivationStarts(s: State, p: Pid, a: ArtifactId, blob: BlobId, serving: bool, life: nat)
    requires p !in s.running && MayActivate(s.world, a, blob, serving)
    ensures var next, revision := Take(s, Start(p, Activate(a, blob, serving, life))), s.world.blobs[blob];
            && p in next.running && next.running[p] == [MakeActive(a, revision)]
            && next.world == s.world && a in s.world.artifacts && s.world.artifacts[a] == revision
            && a in s.world.custody
  {
  }

  /** So a call that may activate when it starts does activate, whatever request comes in between. */
  lemma ActivationFromStart(s: State, turns: seq<Turn>, p: Pid, a: ArtifactId, blob: BlobId, serving: bool, life: nat)
    requires p !in s.running && MayActivate(s.world, a, blob, serving) && forall t :: t in turns ==> t.pid != p
    ensures var last := Schedule(Take(s, Start(p, Activate(a, blob, serving, life))), turns);
            a in last.world.custody && (Due(last, Go(p)).Some? <==> !last.world.custody[a].Active?)
  {
    ActivationStarts(s, p, a, blob, serving, life);
    hide MayActivate, Take, Due, Schedule;
    ActivationUnderWay(Take(s, Start(p, Activate(a, blob, serving, life))), turns, p, a, s.world.blobs[blob]);
  }

  /** A restoration that passed its checks commits whatever other processes have done since: the
      artifact may be vetoed, active or shredded by then, and stays vetoed and shredded. */
  lemma RestorationUnderWay(s: State, turns: seq<Turn>, p: Pid, a: ArtifactId)
    requires p in s.running && s.running[p] == [Release(a)] && forall t :: t in turns ==> t.pid != p
    requires a in s.world.artifacts
    ensures var last := Schedule(s, turns);
            var released := Take(last, Go(p)).world;
            && Due(last, Go(p)) == Some(Release(a)) && a in released.custody && released.custody[a].Active?
            && released.deletions == last.world.deletions
            && released.platform == last.world.platform && released.recovery == last.world.recovery
  {
    ScheduleWaits(s, turns, p, a);
  }

  /** So a call that may restore when it starts does restore, whatever happens before it logs its
      decision and before it commits. */
  lemma RestorationFromStart(s: State, before: seq<Turn>, after: seq<Turn>, p: Pid, a: ArtifactId, life: nat)
    requires p !in s.running && !Vetoed(s.world, a) && a in s.world.artifacts
    requires forall t :: t in before || t in after ==> t.pid != p
    ensures var logged := Take(Schedule(Take(s, Start(p, Restore(a, true, true, life))), before), Go(p));
            var last := Schedule(logged, after);
            var released := Take(last, Go(p)).world;
            && Due(last, Go(p)) == Some(Release(a)) && a in released.custody && released.custody[a].Active?
            && released.deletions == last.world.deletions
            && released.platform == last.world.platform && released.recovery == last.world.recovery
  {
    var started := Take(s, Start(p, Restore(a, true, true, life)));
    assert started.running[p] == [Log(RecoveryDecided)] + [Release(a)];
    hide Vetoed, Schedule;
    ScheduleWaits(started, before, p, a);
    var waiting := Schedule(started, before);
    TakeOne(waiting, p, Log(RecoveryDecided), [Release(a)]);
    hide Take, Due;
    RestorationUnderWay(Take(waiting, Go(p)), after, p, a);
  }

  // ------------------------------------------------------------ when phases go back

  /** The turn sets a phase that is behind the one in the row. */
  ghost predicate StepsBack(s: State, t: Turn) {
    var e := Due(s, t);
    && e.Some? && e.value.SetPhase? && e.value.command in s.world.deletions
    && Rank(e.value.phase) < Rank(s.world.deletions[e.value.command].phase)
  }

  lemma TurnIsForward(s: State, t: Turn)
    ensures Forward(s.world, Take(s, t).world) <==> !StepsBack(s, t)
  {
    TurnsWorld(s, t);
    if Due(s, t).Some? {
      var e := Due(s, t).value;
      if StepsBack(s, t) {
        assert Take(s, t).world.deletions[e.command].phase == e.phase;
      } else {
        ApplyIsForward(s.world, e);
      }
    }
    hide Apply;
  }

  ghost predicate AllForward(s: State, turns: seq<Turn>)
    decreases |turns|
  {
    turns == [] || (Forward(s.world, Take(s, turns[0]).world) && AllForward(Take(s, turns[0]), turns[1..]))
  }

  ghost predicate NoneStepsBack(s: State, turns: seq<Turn>)
    decreases |turns|
  {
    turns == [] || (!StepsBack(s, turns[0]) && NoneStepsBack(Take(s, turns[0]), turns[1..]))
  }

  /** The row is overwritten without a look at it: a schedule is forward throughout exactly
      when no process sets a phase that another has passed. */
  lemma {:induction false} ForwardExactly(s: State, turns: seq<Turn>)
    ensures AllForward(s, turns) <==> NoneStepsBack(s, turns)
    ensures AllForward(s, turns) ==> Forward(s.world, Schedule(s, turns).world)
    decreases |turns|
  {
    if turns != [] {
      TurnIsForward(s, turns[0]);
      ForwardExactly(Take(s, turns[0]), turns[1..]);
      if AllForward(s, turns) {
        ForwardTwice(s.world, Take(s, turns[0]).world, Schedule(s, turns).world);
      }
      hide StepsBack, Take, Forward;
    }
  }

  // -------------------------------------------------- one driver at a time is enough

  /** The script drives deletion `id`: it has a phase of it to set, and its request is made. */
  ghost predicate Drives(script: seq<Effect>, id: CommandId) {
    && (exists e :: e in script && e.SetPhase? && e.command == id)
    && (forall e :: e in script ==> !e.Request?)
  }

  ghost predicate Exclusive(s: State) {
    forall id, p, q :: p in s.running && q in s.running && Drives(s.running[p], id) && Drives(s.running[q], id) ==>
      p == q
  }

  /** At no time do two processes drive one deletion. */
  ghost predicate OneDriver(s: State, turns: seq<Turn>)
    decreases |turns|
  {
    Exclusive(s) && (turns == [] || OneDriver(Take(s, turns[0]), turns[1..]))
  }

  ghost function Floor(w: World, id: CommandId): nat {
    if id in w.deletions then Rank(w.deletions[id].phase) else 0
  }

  ghost predicate ClimbsFor(w: World, script: seq<Effect>, id: CommandId) {
    Climbing(script, id, Floor(w, id))
  }

  /** The script climbs from where its deletion stands, or first asks for it. */
  ghost predicate Sound(w: World, script: seq<Effect>) {
    || (exists id :: ClimbsFor(w, script, id))
    || (script != [] && script[0].Request? && Climbing(script[1..], script[0].command, 0))
  }

  ghost predicate Steady(s: State) {
    forall p :: p in s.running ==> Sound(s.world, s.running[p])
  }

  lemma {:induction false} ClimbingFromLower(script: seq<Effect>, id: CommandId, floor: nat, lower: nat)
    requires Climbing(script, id, floor) && lower <= floor
    ensures Climbing(script, id, lower)
    decreases |script|
  {
    if script != [] && !script[0].SetPhase? {
      ClimbingFromLower(script[1..], id, floor, lower);
    }
  }

  /** A script that climbs for a deletion it does not drive sets no phase at all. */
  lemma {:induction false} QuietClimbs(script: seq<Effect>, id: CommandId, floor: nat, other: nat)
    requires Climbing(script, id, floor) && !Drives(script, id)
    ensures Climbing(script, id, other)
    decreases |script|
  {
    ClimbingHasNoRequest(script, id, floor);
    if script != [] {
      assert script[0] in script;
      assert !script[0].SetPhase?;
      ClimbingHasNoRequest(script[1..], id, floor);
      QuietClimbs(script[1..], id, floor, other);
    }
  }

  lemma {:induction false} ClimbingHasNoRequest(script: seq<Effect>, id: CommandId, floor: nat)
    requires Climbing(script, id, floor)
    ensures forall e :: e in script ==> !e.Request?
    ensures forall e :: e in script && e.SetPhase? ==> e.command == id
    decreases |script|
  {
    if script != [] {
      ClimbingHasNoRequest(script[1..], id, FloorAfter(script[0], floor));
      assert forall e :: e in script ==> e == script[0] || e in script[1..];
    }
  }

  lemma NewIsSound(w: World, op: Op)
    ensures Sound(w, ScriptOf(w, op))
  {
    if op.Forget? {
      assert ClimbsFor(w, [], 0);
      DriveClimbs(Requested, op.id, op.artifact, op.blob, true);
      var rest := Drive(Requested, op.id, op.artifact, op.blob, true);
      hide Drive, Climbing;
      assert ([Request(op.id, op.artifact)] + rest)[1..] == rest;
    } else if op.Resume? {
      ResumeIsSound(w, op.id, op.artifact, op.blob);
    } else {
      NoPhasesClimb(w, op);
      if 0 in w.deletions {
        RankIsSmall(w.deletions[0].phase);
      }
      hide ScriptOf;
      ClimbingFromLower(ScriptOf(w, op), 0, 7, Floor(w, 0));
      assert ClimbsFor(w, ScriptOf(w, op), 0);
    }
  }

  lemma ResumeIsSound(w: World, id: CommandId, a: ArtifactId, blob: BlobId)
    ensures ClimbsFor(w, if id in w.deletions then ResumeScript(w, id, a, blob) else [], id)
  {
    if id in w.deletions && !w.deletions[id].phase.Complete? {
      var p := w.deletions[id].phase;
      var rest := Drive(p, id, a, blob, false);
      DriveClimbs(p, id, a, blob, false);
      hide Drive;
      ClimbingFirst(Tombstone(blob), rest, id, Rank(p));
      assert [] + rest == rest;
    }
  }

  /** What an effect of one process leaves of another's script. */
  lemma OtherStaysSound(w: World, e: Effect, script: seq<Effect>)
    requires Apply(w, e).Some? && Sound(w, script)
    requires e.SetPhase? ==> !Drives(script, e.command)
    ensures Sound(Apply(w, e).value, script)
  {
    var next := Apply(w, e).value;
    if id :| ClimbsFor(w, script, id) {
      FloorAfterEffect(w, e, id);
      hide Apply;
      if e.SetPhase? && e.command == id {
        QuietClimbs(script, id, Floor(w, id), Floor(next, id));
      }
      assert ClimbsFor(next, script, id);
    }
  }

  lemma FloorAfterEffect(w: World, e: Effect, id: CommandId)
    requires Apply(w, e).Some?
    ensures Floor(Apply(w, e).value, id) ==
            if e.SetPhase? && e.command == id && id in w.deletions then Rank(e.phase) else Floor(w, id)
  {
  }

  lemma OwnStaysSound(w: World, script: seq<Effect>)
    requires script != [] && Apply(w, script[0]).Some? && Sound(w, script)
    ensures Sound(Apply(w, script[0]).value, script[1..])
    ensures script[0].SetPhase? && script[0].command in w.deletions ==>
              Rank(w.deletions[script[0].command].phase) <= Rank(script[0].phase)
    ensures script[0].SetPhase? ==> Drives(script, script[0].command)
  {
    var e, rest := script[0], script[1..];
    var next := Apply(w, e).value;
    if e.Request? {
      FloorAfterEffect(w, e, e.command);
      assert Floor(w, e.command) == 0;
      hide Apply;
      assert ClimbsFor(next, rest, e.command);
    } else {
      var id :| ClimbsFor(w, script, id);
      FloorAfterEffect(w, e, id);
      hide Apply;
      ClimbingHasNoRequest(script, id, Floor(w, id));
      if e.SetPhase? && id !in w.deletions {
        ClimbingFromLower(rest, id, Rank(e.phase), 0);
      }
      assert ClimbsFor(next, rest, id);
    }
  }

  lemma TurnIsSteady(s: State, t: Turn)
    requires Steady(s) && Exclusive(s)
    ensures Steady(Take(s, t)) && !StepsBack(s, t)
  {
    var next := Take(s, t);
    if t.Start? {
      NewIsSound(s.world, t.op);
      hide Sound, ScriptOf;
    } else if Due(s, t).Some? {
      var script := s.running[t.pid];
      OwnStaysSound(s.world, script);
      forall q | q in next.running
        ensures Sound(next.world, next.running[q])
      {
        if q != t.pid {
          assert script[0].SetPhase? ==> !Drives(s.running[q], script[0].command);
          hide Sound, Drives, Apply;
          OtherStaysSound(s.world, script[0], s.running[q]);
        }
      }
    } else {
      hide Sound, Apply;
    }
  }

  /** Phases only advance, whatever else overlaps, as long as no two processes drive the same
      deletion at a time: it may be resumed once the one before has died or given up. */
  lemma {:induction false} OneDriverIsForward(s: State, turns: seq<Turn>)
    requires Steady(s) && OneDriver(s, turns)
    ensures AllForward(s, turns) && Forward(s.world, Schedule(s, turns).world)
    decreases |turns|
  {
    if turns != [] {
      TurnIsSteady(s, turns[0]);
      TurnIsForward(s, turns[0]);
      hide Steady, Take, Exclusive, Forward;
      OneDriverIsForward(Take(s, turns[0]), turns[1..]);
    }
    ForwardExactly(s, turns);
  }

  // ------------------------------------------------- two drivers may go back

  lemma TakeOne(s: State, p: Pid, e: Effect, rest: seq<Effect>)
    requires p in s.running && s.running[p] == [e] + rest && Apply(s.world, e).Some?
    ensures Take(s, Go(p)) == State(Apply(s.world, e).value, s.running[p := rest])
  {
    assert ([e] + rest)[1..] == rest;
  }

  /** A first process that is slow and not dead, and a second that resumes: when the first goes
      on the completed deletion is back at its checkpoint.  What it claims is still true. */
  lemma SlowDriveGoesBack(s: State, id: CommandId, a: ArtifactId, blob: BlobId, n: nat)
    requires At(s.world, id, a, TombstoneActive) && Kept(s.world, id, blob) && InCustody(s.world, a)
    requires s.running == map[0 := Drive(TombstoneActive, id, a, blob, true)]
    requires n == |ResumeScript(s.world, id, a, blob)|
    ensures var resumed := Schedule(s, [Start(1, Resume(id, a, blob, n))] + Gos(1, n));
            var last := Take(resumed, Go(0));
            && At(resumed.world, id, a, Complete) && At(last.world, id, a, CheckpointCommitted)
            && StepsBack(resumed, Go(0)) && !Forward(resumed.world, last.world)
            && Kept(last.world, id, blob) && Gone(last.world, a)
  {
    hide *;
    ResumedBesides(s, id, a, blob, n);
    var resumed := Schedule(s, [Start(1, Resume(id, a, blob, n))] + Gos(1, n));
    PlainDrive(id, a, blob);
    SetBack(resumed, id, a, blob, EventOf(CheckpointCommitted, id, a, true),
            Drive(CheckpointCommitted, id, a, blob, true));
    TurnIsForward(resumed, Go(0));
  }

  lemma PlainDrive(id: CommandId, a: ArtifactId, blob: BlobId)
    ensures Drive(TombstoneActive, id, a, blob, true) ==
            [SetPhase(id, CheckpointCommitted, EventOf(CheckpointCommitted, id, a, true))] +
            Drive(CheckpointCommitted, id, a, blob, true)
  {
    EnterThen(CheckpointCommitted, id, a, blob, true, Drive(CheckpointCommitted, id, a, blob, true));
    hide Enter, EventOf;
  }

  lemma SetBack(s: State, id: CommandId, a: ArtifactId, blob: BlobId, event: Option<Event>, rest: seq<Effect>)
    requires At(s.world, id, a, Complete) && Kept(s.world, id, blob) && Gone(s.world, a)
    requires 0 in s.running && s.running[0] == [SetPhase(id, CheckpointCommitted, event)] + rest
    ensures var last := Take(s, Go(0)).world;
            At(last, id, a, CheckpointCommitted) && Kept(last, id, blob) && Gone(last, a) && StepsBack(s, Go(0))
  {
    TakeOne(s, 0, SetPhase(id, CheckpointCommitted, event), rest);
    hide Take;
  }

  lemma ResumedBesides(s: State, id: CommandId, a: ArtifactId, blob: BlobId, n: nat)
    requires At(s.world, id, a, TombstoneActive) && Kept(s.world, id, blob) && InCustody(s.world, a)
    requires 0 in s.running && 1 !in s.running && n == |ResumeScript(s.world, id, a, blob)|
    ensures var resumed := Schedule(s, [Start(1, Resume(id, a, blob, n))] + Gos(1, n));
            && At(resumed.world, id, a, Complete) && Kept(resumed.world, id, blob) && Gone(resumed.world, a)
            && 0 in resumed.running && resumed.running[0] == s.running[0]
  {
    var script := ResumeScript(s.world, id, a, blob);
    var started := s.(running := s.running[1 := script]);
    assert Take(s, Start(1, Resume(id, a, blob, n))) == started;
    ResumeSettles(s.world, id, a, blob, n);
    ResumeIsSafe(s.world, id, a, blob, n);
    hide ResumeScript, Execute, Schedule, Take, Kept, Gone;
    Alone(started, 1, n);
    FirstTurn(s, Start(1, Resume(id, a, blob, n)), Gos(1, n));
    var resumed := Schedule(started, Gos(1, n));
    assert 0 in started.running - {1} && (started.running - {1})[0] == s.running[0];
    assert 0 in resumed.running - {1} && (resumed.running - {1})[0] == resumed.running[0];
  }

  /** Such a state is a forget of four effects away from a quiet workspace. */
  lemma SlowDriveIsReached(w: World, id: CommandId, a: ArtifactId, blob: BlobId)
    requires !Vetoed(w, a) && a in w.artifacts && id !in w.commands && id !in w.deletions && InCustody(w, a)
    ensures var s := Schedule(State(w, map[]), [Start(0, Forget(id, a, blob, 4))] + Gos(0, 4));
            && At(s.world, id, a, TombstoneActive) && Kept(s.world, id, blob) && InCustody(s.world, a)
            && s.running == map[0 := Drive(TombstoneActive, id, a, blob, true)]
  {
    var d0, d1, d2 := Drive(Requested, id, a, blob, true), Drive(ApiVetoActive, id, a, blob, true),
                      Drive(TombstoneActive, id, a, blob, true);
    var e1 := SetPhase(id, ApiVetoActive, EventOf(ApiVetoActive, id, a, true));
    var e3 := SetPhase(id, TombstoneActive, EventOf(TombstoneActive, id, a, true));
    assert d0 == [e1] + d1;
    assert d1 == [Tombstone(blob)] + ([e3] + d2);
    assert Take(State(w, map[]), Start(0, Forget(id, a, blob, 4))) == State(w, map[0 := [Request(id, a)] + d0]);
    var w1, w2, w3, w4 := FourEffects(w, id, a, blob);
    hide *;
    TakeAlone(w, Request(id, a), d0);
    TakeAlone(w1, e1, d1);
    TakeAlone(w2, Tombstone(blob), [e3] + d2);
    TakeAlone(w3, e3, d2);
    FirstTurn(State(w, map[]), Start(0, Forget(id, a, blob, 4)), Gos(0, 4));
    FourTurns(State(w, map[0 := [Request(id, a)] + d0]), State(w1, map[0 := d0]), State(w2, map[0 := d1]),
              State(w3, map[0 := [e3] + d2]), State(w4, map[0 := d2]));
  }

  lemma TakeAlone(w: World, e: Effect, rest: seq<Effect>)
    requires Apply(w, e).Some?
    ensures Take(State(w, map[0 := [e] + rest]), Go(0)) == State(Apply(w, e).value, map[0 := rest])
  {
    TakeOne(State(w, map[0 := [e] + rest]), 0, e, rest);
    assert map[0 := [e] + rest][0 := rest] == map[0 := rest];
  }

  lemma FourEffects(w: World, id: CommandId, a: ArtifactId, blob: BlobId)
    returns (w1: World, w2: World, w3: World, w4: World)
    requires a in w.artifacts && id !in w.commands && id !in w.deletions && InCustody(w, a)
    ensures Apply(w, Request(id, a)) == Some(w1)
    ensures Apply(w1, SetPhase(id, ApiVetoActive, EventOf(ApiVetoActive, id, a, true))) == Some(w2)
    ensures Apply(w2, Tombstone(blob)) == Some(w3)
    ensures Apply(w3, SetPhase(id, TombstoneActive, EventOf(TombstoneActive, id, a, true))) == Some(w4)
    ensures At(w4, id, a, TombstoneActive) && Kept(w4, id, blob) && InCustody(w4, a)
  {
    RequestIsSafe(w, id, a, blob);
    w1 := Apply(w, Request(id, a)).value;
    EntryIsSafe(w1, id, a, blob, Requested, true);
    w2 := Apply(w1, SetPhase(id, ApiVetoActive, EventOf(ApiVetoActive, id, a, true))).value;
    hide Apply, EventOf, Forward, Vetoed;
    TombstoneIsSafe(w2, id, a, blob, ApiVetoActive, true);
    w3 := Apply(w2, Tombstone(blob)).value;
    EntryIsSafe(w3, id, a, blob, ApiVetoActive, true);
    w4 := Apply(w3, SetPhase(id, TombstoneActive, EventOf(TombstoneActive, id, a, true))).value;
    hide Kept, StoreForward;
  }

  lemma FourTurns(s0: State, s1: State, s2: State, s3: State, s4: State)
    requires Take(s0, Go(0)) == s1 && Take(s1, Go(0)) == s2 && Take(s2, Go(0)) == s3 && Take(s3, Go(0)) == s4
    ensures Schedule(s0, Gos(0, 4)) == s4
  {
    hide Take;
    assert Gos(0, 4) == [Go(0)] + ([Go(0)] + ([Go(0)] + ([Go(0)] + [])));
    FirstTurn(s0, Go(0), [Go(0)] + ([Go(0)] + ([Go(0)] + [])));
    FirstTurn(s1, Go(0), [Go(0)] + ([Go(0)] + []));
    FirstTurn(s2, Go(0), [Go(0)] + []);
    FirstTurn(s3, Go(0), []);
  }

  lemma FirstTurn(s: State, t: Turn, rest: seq<Turn>)
    ensures Schedule(s, [t] + rest) == Schedule(Take(s, t), rest)
  {
    assert ([t] + rest)[1..] == rest;
  }

  // ------------------------------------------------------- claims stay true

  /** How far deletion `id` of `a` and `blob` has really got. */
  datatype Truth = Truth(blobGone: bool, platformGone: bool, recoveryGone: bool)

  function TruthOf(w: World, a: ArtifactId, blob: BlobId): Truth {
    Truth(blob in w.tombstoned, a in w.platform && w.platform[a].Destroyed?,
          a in w.recovery && w.recovery[a].Destroyed?)
  }

  ghost predicate AtLeast(more: Truth, less: Truth) {
    && (less.blobGone ==> more.blobGone) && (less.platformGone ==> more.platformGone)
    && (less.recoveryGone ==> more.recoveryGone)
  }

  function TruthAfter(e: Effect, a: ArtifactId, blob: BlobId, t: Truth): Truth {
    match e
    case Tombstone(b) => if b == blob then t.(blobGone := true) else t
    case DestroyPlatform(x) => if x == a then t.(platformGone := true) else t
    case DestroyRecovery(x) => if x == a then t.(recoveryGone := true) else t
    case _ => t
  }

  ghost predicate Supports(t: Truth, p: Phase) {
    (Rank(p) >= 2 ==> t.blobGone) && (Rank(p) >= 4 ==> t.platformGone && t.recoveryGone)
  }

  /** Every phase the script sets for `id` is true by then; a request for a deletion that is
      there already is going to be refused. */
  ghost predicate Justified(script: seq<Effect>, id: CommandId, a: ArtifactId, blob: BlobId, there: bool, t: Truth)
    decreases |script|
  {
    script == [] ||
    match script[0]
    case SetPhase(command, phase, _) =>
      (command == id ==> Supports(t, phase)) && Justified(script[1..], id, a, blob, there, t)
    case Request(command, x) =>
      (command == id && there) || ((command == id ==> x == a) && Justified(script[1..], id, a, blob, there, t))
    case e => Justified(script[1..], id, a, blob, there, TruthAfter(e, a, blob, t))
  }

  lemma {:induction false} JustifiedByMore(script: seq<Effect>, id: CommandId, a: ArtifactId, blob: BlobId, there: bool,
                                           less: Truth, more: Truth)
    requires Justified(script, id, a, blob, there, less) && AtLeast(more, less)
    ensures Justified(script, id, a, blob, there, more)
    decreases |script|
  {
    if script != [] && !(script[0].Request? && script[0].command == id && there) {
      JustifiedByMore(script[1..], id, a, blob, there, TruthAfter(script[0], a, blob, less),
                      TruthAfter(script[0], a, blob, more));
    }
  }

  lemma {:induction false} ElsewhereIsJustified(script: seq<Effect>, id: CommandId, a: ArtifactId, blob: BlobId,
                                                there: bool, t: Truth)
    requires Elsewhere(script, id)
    ensures Justified(script, id, a, blob, there, t)
    decreases |script|
  {
    if script != [] {
      assert script[0] in script;
      ElsewhereIsJustified(script[1..], id, a, blob, there, TruthAfter(script[0], a, blob, t));
    }
  }

  lemma JustifiedFirst(e: Effect, rest: seq<Effect>, id: CommandId, a: ArtifactId, blob: BlobId, there: bool, t: Truth)
    requires !e.Request? && Justified(rest, id, a, blob, there, TruthAfter(e, a, blob, t))
    requires e.SetPhase? && e.command == id ==> Supports(t, e.phase)
    ensures Justified([e] + rest, id, a, blob, there, t)
  {
    assert ([e] + rest)[1..] == rest;
  }

  lemma {:induction false} DriveIsJustified(p: Phase, id: CommandId, a: ArtifactId, blob: BlobId, forgetting: bool,
                                            there: bool, t: Truth)
    requires Supports(t, p) && (!forgetting ==> t.blobGone)
    ensures Justified(Drive(p, id, a, blob, forgetting), id, a, blob, there, t)
    decreases 7 - Rank(p)
  {
    if !p.Complete? {
      var rest := Drive(Next(p), id, a, blob, forgetting);
      DriveIsJustified(Next(p), id, a, blob, forgetting, there, TruthEntering(Next(p), t));
      hide Justified, Drive;
      EnterIsJustified(Next(p), id, a, blob, forgetting, rest, there, t);
    }
  }

  function TruthEntering(p: Phase, t: Truth): Truth {
    if p.TombstoneActive? then t.(blobGone := true)
    else if p.RevocationKeysDestroyed? then t.(platformGone := true, recoveryGone := true)
    else t
  }

  lemma EnterIsJustified(p: Phase, id: CommandId, a: ArtifactId, blob: BlobId, forgetting: bool, rest: seq<Effect>,
                         there: bool, t: Truth)
    requires Supports(TruthEntering(p, t), p) && (!forgetting ==> t.blobGone)
    requires Justified(rest, id, a, blob, there, TruthEntering(p, t))
    ensures Justified(Enter(p, id, a, blob, forgetting) + rest, id, a, blob, there, t)
  {
    hide Justified, EventOf, Enter;
    var last := SetPhase(id, p, EventOf(p, id, a, forgetting));
    var tail := [last] + rest;
    EnterThen(p, id, a, blob, forgetting, rest);
    JustifiedFirst(last, rest, id, a, blob, there, TruthEntering(p, t));
    if p.TombstoneActive? && forgetting {
      JustifiedFirst(Tombstone(blob), tail, id, a, blob, there, t);
    } else if p.RevocationKeysDestroyed? {
      JustifiedFirst(DestroyRecovery(a), tail, id, a, blob, there, t.(platformGone := true));
      JustifiedFirst(DestroyPlatform(a), [DestroyRecovery(a)] + tail, id, a, blob, there, t);
    }
  }

  /** A call about deletion `id` names its artifact and blob; forgetting need not if the
      deletion is there from the beginning, for then it is refused. */
  predicate WellNamed(op: Op, id: CommandId, a: ArtifactId, blob: BlobId, there: bool) {
    (op.Resume? || (op.Forget? && !there)) && op.id == id ==> op.artifact == a && op.blob == blob
  }

  ghost predicate Claims(w: World, id: CommandId, a: ArtifactId, blob: BlobId, there: bool) {
    && (there ==> id in w.deletions)
    && (id in w.deletions ==> w.deletions[id].artifact == a && Kept(w, id, blob))
  }

  /** What deletion `id` claims is true, and no process is about to claim what is not. */
  ghost predicate Truthful(s: State, id: CommandId, a: ArtifactId, blob: BlobId, there: bool) {
    && Claims(s.world, id, a, blob, there)
    && (forall p :: p in s.running ==> Justified(s.running[p], id, a, blob, there, TruthOf(s.world, a, blob)))
  }

  lemma NewForgetIsJustified(op: Op, id: CommandId, a: ArtifactId, blob: BlobId, there: bool, t: Truth)
    requires op.Forget? && WellNamed(op, id, a, blob, there)
    ensures Justified(ForgetScript(op.id, op.artifact, op.blob), id, a, blob, there, t)
  {
    var script := ForgetScript(op.id, op.artifact, op.blob);
    var rest := Drive(Requested, op.id, op.artifact, op.blob, true);
    assert script[0] == Request(op.id, op.artifact) && script[1..] == rest;
    if op.id == id && !there {
      DriveIsJustified(Requested, id, a, blob, true, there, t);
    } else if op.id != id {
      DriveIsElsewhere(Requested, op.id, op.artifact, op.blob, true, id);
      hide Drive;
      ElsewhereIsJustified(rest, id, a, blob, there, t);
    }
  }

  lemma NewResumeIsJustified(w: World, op: Op, id: CommandId, a: ArtifactId, blob: BlobId, there: bool)
    requires op.Resume? && op.id in w.deletions && WellNamed(op, id, a, blob, there) && Claims(w, id, a, blob, there)
    ensures Justified(ResumeScript(w, op.id, op.artifact, op.blob), id, a, blob, there, TruthOf(w, a, blob))
  {
    var p := w.deletions[op.id].phase;
    var rest := Drive(p, op.id, op.artifact, op.blob, false);
    var t := TruthOf(w, a, blob);
    assert [] + rest == rest;
    if op.id != id {
      DriveIsElsewhere(p, op.id, op.artifact, op.blob, false, id);
      hide Drive;
      assert Elsewhere(ResumeScript(w, op.id, op.artifact, op.blob), id);
      ElsewhereIsJustified(ResumeScript(w, op.id, op.artifact, op.blob), id, a, blob, there, t);
    } else if !p.Complete? {
      DriveIsJustified(p, id, a, blob, false, there, t.(blobGone := true));
      hide Drive;
      JustifiedFirst(Tombstone(blob), rest, id, a, blob, there, t);
    }
  }

  lemma NewIsJustified(w: World, op: Op, id: CommandId, a: ArtifactId, blob: BlobId, there: bool)
    requires WellNamed(op, id, a, blob, there) && Claims(w, id, a, blob, there)
    ensures Justified(ScriptOf(w, op), id, a, blob, there, TruthOf(w, a, blob))
  {
    var t := TruthOf(w, a, blob);
    if op.Forget? {
      NewForgetIsJustified(op, id, a, blob, there, t);
    } else if op.Resume? {
      if op.id in w.deletions {
        NewResumeIsJustified(w, op, id, a, blob, there);
      }
    } else {
      assert Elsewhere(ScriptOf(w, op), id);
      ElsewhereIsJustified(ScriptOf(w, op), id, a, blob, there, t);
    }
    hide ForgetScript, ResumeScript;
  }

  lemma TruthGrows(w: World, e: Effect, a: ArtifactId, blob: BlobId)
    requires Apply(w, e).Some?
    ensures AtLeast(TruthOf(Apply(w, e).value, a, blob), TruthAfter(e, a, blob, TruthOf(w, a, blob)))
    ensures AtLeast(TruthOf(Apply(w, e).value, a, blob), TruthOf(w, a, blob))
  {
  }

  lemma RestIsJustified(w: World, script: seq<Effect>, id: CommandId, a: ArtifactId, blob: BlobId, there: bool)
    requires Claims(w, id, a, blob, there) && script != [] && Apply(w, script[0]).Some?
    requires Justified(script, id, a, blob, there, TruthOf(w, a, blob))
    ensures Justified(script[1..], id, a, blob, there, TruthAfter(script[0], a, blob, TruthOf(w, a, blob)))
  {
    if !script[0].Request? {
      hide Apply;
    }
  }

  lemma ClaimsStay(w: World, e: Effect, id: CommandId, a: ArtifactId, blob: BlobId, there: bool)
    requires Claims(w, id, a, blob, there) && Apply(w, e).Some?
    requires e.SetPhase? && e.command == id ==> Supports(TruthOf(w, a, blob), e.phase)
    requires e.Request? && e.command == id && !there ==> e.artifact == a
    ensures Claims(Apply(w, e).value, id, a, blob, there)
  {
    if e.SetPhase? || e.Request? {
    } else {
      ApplyLasts(w, e);
      assert Apply(w, e).value.deletions == w.deletions;
      hide Apply;
    }
  }

  lemma TurnIsTruthful(s: State, t: Turn, id: CommandId, a: ArtifactId, blob: BlobId, there: bool)
    requires Truthful(s, id, a, blob, there) && (t.Start? ==> WellNamed(t.op, id, a, blob, there))
    ensures Truthful(Take(s, t), id, a, blob, there)
  {
    var next := Take(s, t);
    if t.Start? {
      NewIsJustified(s.world, t.op, id, a, blob, there);
      hide ScriptOf, Justified, Claims;
    } else if Due(s, t).Some? {
      var script := s.running[t.pid];
      RestIsJustified(s.world, script, id, a, blob, there);
      ClaimsStay(s.world, script[0], id, a, blob, there);
      TruthGrows(s.world, script[0], a, blob);
      var now := TruthOf(next.world, a, blob);
      forall q | q in next.running
        ensures Justified(next.running[q], id, a, blob, there, now)
      {
        hide Apply, Justified, Claims, AtLeast, TruthOf, TruthAfter;
        if q == t.pid {
          JustifiedByMore(script[1..], id, a, blob, there, TruthAfter(script[0], a, blob, TruthOf(s.world, a, blob)),
                          now);
        } else {
          JustifiedByMore(s.running[q], id, a, blob, there, TruthOf(s.world, a, blob), now);
        }
      }
    } else {
      hide Apply, Justified, Claims;
    }
  }

  /** Although phases may go back, what a deletion claims by its phase is true at every moment
      of every interleaving in which the calls about it name its artifact and blob. */
  lemma {:induction false} ScheduleIsTruthful(s: State, turns: seq<Turn>, id: CommandId, a: ArtifactId, blob: BlobId,
                                              there: bool)
    requires Truthful(s, id, a, blob, there)
    requires forall t :: t in turns && t.Start? ==> WellNamed(t.op, id, a, blob, there)
    ensures Truthful(Schedule(s, turns), id, a, blob, there)
    decreases |turns|
  {
    if turns != [] {
      TurnIsTruthful(s, turns[0], id, a, blob, there);
      hide Truthful, Take;
      ScheduleIsTruthful(Take(s, turns[0]), turns[1..], id, a, blob, there);
    }
  }

  /** From a quiet workspace, with the deletion there or not yet. */
  lemma SchedulesKeep(w: World, turns: seq<Turn>, id: CommandId, a: ArtifactId, blob: BlobId)
    requires id in w.deletions ==> w.deletions[id].artifact == a && Kept(w, id, blob)
    requires forall t :: t in turns && t.Start? ==> WellNamed(t.op, id, a, blob, id in w.deletions)
    ensures var last := Schedule(State(w, map[]), turns).world;
            id in last.deletions ==> last.deletions[id].artifact == a && Kept(last, id, blob)
  {
    ScheduleIsTruthful(State(w, map[]), turns, id, a, blob, id in w.deletions);
  }

  /** Whatever overlapped, crashed or went back before: a resume that then runs alone and does
      not die settles the deletion. */
  lemma EveryScheduleSettles(w: World, turns: seq<Turn>, id: CommandId, a: ArtifactId, blob: BlobId, life: nat)
    requires id in w.deletions ==> w.deletions[id].artifact == a && Kept(w, id, blob)
    requires forall t :: t in turns && t.Start? ==> WellNamed(t.op, id, a, blob, id in w.deletions)
    ensures var last := Schedule(State(w, map[]), turns).world;
            id in last.deletions && life >= |ResumeScript(last, id, a, blob)| ==>
              Settled(last, Execute(last, ResumeScript(last, id, a, blob), life), id, a, blob)
  {
    SchedulesKeep(w, turns, id, a, blob);
    var last := Schedule(State(w, map[]), turns).world;
    hide Schedule, Kept, ResumeScript, Settled;
    if id in last.deletions && life >= |ResumeScript(last, id, a, blob)| {
      ResumeSettles(last, id, a, blob, life);
    }
  }
}
