/**
 When building a candidate gives up.  Refs are read first and created later, so that between
 the two another publisher may create the same one.
 */
module Building {
  import opened Options
  import opened Publication
  import opened PublicationSafety
  import opened PublicationTheorems

  // --------------------------------------------------- releases of the pointer's children

  ghost predicate ParentOnChain(db: Db, parent: Option<GenId>) {
    parent.Some? ==> OnChain(db, parent.value)
  }

  /** What a child of the pointer's target carries as its release. */
  ghost predicate Current(db: Db, g: GenId, release: Release) {
    g.parent == db.pointer ==> release == Release(g, if g.parent.Some? then db.release else None)
  }

  /** The publisher is between reading the pointer and having its two refs. */
  predicate IsBuilding(me: Publisher) {
    me.Composed? || me.Unanchored? || me.Anchored? || me.Unreleased?
  }

  ghost predicate BuilderInv(db: Db, me: Publisher) {
    && (me.Begun? ==> ParentOnChain(db, me.parent))
    && (IsBuilding(me) ==>
          && me.prepared.gen.parent == me.prepared.parent
          && ParentOnChain(db, me.prepared.parent) && Current(db, me.prepared.gen, me.prepared.release))
  }

  /** Refs are only made for children of the chain, and those of the pointer's children carry
      the current release as their previous one. */
  ghost predicate RefsCurrent(s: State) {
    && (forall g :: g in s.releaseRefs ==> ParentOnChain(s.db, g.parent) && Current(s.db, g, s.releaseRefs[g]))
    && (forall p :: p in s.publishers ==> BuilderInv(s.db, s.publishers[p]))
  }

  /** A step that leaves pointer and release alone. */
  lemma RefsFrame(s: State, s': State, p: nat)
    requires RefsCurrent(s) && s'.db.pointer == s.db.pointer && s'.db.release == s.db.release
    requires BuilderInv(s.db, At(s', p))
    requires forall g :: g in s'.releaseRefs ==>
               (g in s.releaseRefs && s'.releaseRefs[g] == s.releaseRefs[g]) ||
               (ParentOnChain(s.db, g.parent) && Current(s.db, g, s'.releaseRefs[g]))
    requires s'.publishers == s.publishers || s'.publishers == s.publishers[p := At(s', p)]
    ensures RefsCurrent(s')
  {
    hide Chain;
    assert forall g :: ParentOnChain(s'.db, g) <==> ParentOnChain(s.db, g);
  }

  lemma OtherSteps(s: State, step: Step)
    requires RefsCurrent(s) && !(step.Activating? && At(s, step.p).Inserted?)
    ensures var s', p := Apply(s, step), step.p;
            && s'.db.pointer == s.db.pointer && s'.db.release == s.db.release
            && (s'.publishers == s.publishers || s'.publishers == s.publishers[p := At(s', p)])
  {
    hide ComposeStep, ActivateStep, WritesFor, IsNextSeq, RefsCurrent;
    ComposeIsQuiet(s, step);
  }

  lemma ComposeIsQuiet(s: State, step: Step)
    ensures At(s, step.p).Begun? ==>
              var s' := ComposeStep(s, step.p, At(s, step.p).work, At(s, step.p).parent);
              s'.db == s.db && s'.anchors == s.anchors && s'.releaseRefs == s.releaseRefs && s'.history == s.history
              && s'.publishers == s.publishers[step.p := At(s', step.p)]
  {
    hide NothingChanges, Candidate;
  }

  lemma StepKeepsBuilder(s: State, step: Step)
    requires RefsCurrent(s) && !(step.Activating? && At(s, step.p).Inserted?)
    ensures BuilderInv(s.db, At(Apply(s, step), step.p))
  {
    var p := step.p;
    assert BuilderInv(s.db, At(s, p));
    if step.Begin? && s.db.pointer.Some? {
      ChainOfChild(s.db.pointer.value);
    }
    hide OnChain, Survivors, NothingChanges, WritesFor, ActivateStep, IsNextSeq, RefsCurrent;
  }

  lemma StepKeepsRefs(s: State, step: Step, g: GenId)
    requires RefsCurrent(s) && g in Apply(s, step).releaseRefs
    ensures var s' := Apply(s, step);
            || (g in s.releaseRefs && s'.releaseRefs[g] == s.releaseRefs[g])
            || (ParentOnChain(s.db, g.parent) && Current(s.db, g, s'.releaseRefs[g]))
  {
    assert BuilderInv(s.db, At(s, step.p));
    if step.Compose? {
      ComposeIsQuiet(s, step);
    }
    hide OnChain, ComposeStep, WritesFor, Activate, IsNextSeq, RefsCurrent;
  }

  /** Moving the pointer to a generation that was never on the chain leaves no child of it behind. */
  lemma NewPointerKeepsRefs(s: State, s': State, g: GenId, p: nat)
    requires RefsCurrent(s) && s'.releaseRefs == s.releaseRefs && !OnChain(s.db, g)
    requires s'.db.pointer == Some(g) && Grows(s.db, s'.db)
    requires s'.publishers == s.publishers[p := At(s', p)] && !At(s', p).Begun? && !IsBuilding(At(s', p))
    ensures RefsCurrent(s')
  {
    assert forall h :: OnChain(s.db, h) ==> OnChain(s'.db, h);
    hide OnChain, Grows;
  }

  lemma ActivateKeepsRefs(s: State, p: nat)
    requires Inv(s) && RefsCurrent(s) && At(s, p).Inserted?
    ensures RefsCurrent(Apply(s, Activating(p)))
  {
    hide RefsCurrent, DbInv, HistoryInv, Grows, OnChain, Activate, WritesFor;
    var prepared := At(s, p).prepared;
    var s' := Apply(s, Activating(p));
    MeInv(s, p);
    if Activate(s.db, prepared.gen, prepared.parent, prepared.release).Ok? {
      ActivatedFrom(s.db, prepared.gen, prepared.parent, prepared.release);
      ReadyIsOffChain(s.db, prepared.gen, prepared.release);
      ActivateKeepsDb(s.db, prepared.gen, prepared.release);
      NewPointerKeepsRefs(s, s', prepared.gen, p);
    } else {
      RefsFrame(s, s', p);
    }
  }

  lemma ApplyKeepsRefs(s: State, step: Step)
    requires Inv(s) && RefsCurrent(s)
    ensures RefsCurrent(Apply(s, step))
  {
    hide RefsCurrent, Inv, Apply, BuilderInv, Current, ParentOnChain;
    if step.Activating? && At(s, step.p).Inserted? {
      ActivateKeepsRefs(s, step.p);
    } else {
      OtherSteps(s, step);
      StepKeepsBuilder(s, step);
      forall g | g in Apply(s, step).releaseRefs
        ensures || (g in s.releaseRefs && Apply(s, step).releaseRefs[g] == s.releaseRefs[g])
                || (ParentOnChain(s.db, g.parent) && Current(s.db, g, Apply(s, step).releaseRefs[g]))
      {
        StepKeepsRefs(s, step, g);
      }
      RefsFrame(s, Apply(s, step), step.p);
    }
  }

  lemma {:induction false} RunKeepsRefs(s: State, steps: seq<Step>)
    requires Inv(s) && RefsCurrent(s)
    ensures RefsCurrent(Run(s, steps))
    decreases |steps|
  {
    if steps != [] {
      hide Inv, RefsCurrent;
      ApplyKeepsInv(s, steps[0]);
      ApplyKeepsRefs(s, steps[0]);
      RunKeepsRefs(Apply(s, steps[0]), steps[1..]);
    }
  }

  // ------------------------------------------------------------ who made a ref

  datatype RefKind = AnchorRef | ReleaseRef

  predicate Has(s: State, kind: RefKind, g: GenId) {
    match kind
    case AnchorRef => g in s.anchors
    case ReleaseRef => g in s.releaseRefs
  }

  predicate Finds(step: Step, kind: RefKind) {
    if kind.AnchorRef? then step.FindAnchor? else step.FindRelease?
  }

  predicate Makes(step: Step, kind: RefKind) {
    if kind.AnchorRef? then step.MakeAnchor? else step.MakeRelease?
  }

  /** The publisher has looked for the ref of its candidate, and found none. */
  predicate Waits(me: Publisher, kind: RefKind) {
    if kind.AnchorRef? then me.Unanchored? else me.Unreleased?
  }

  /** After `n` of the steps. */
  ghost function After(steps: seq<Step>, n: nat): State
    requires n <= |steps|
  {
    Run(INITIAL, steps[..n])
  }

  lemma AfterOneMore(steps: seq<Step>, n: nat)
    requires n < |steps|
    ensures After(steps, n + 1) == Apply(After(steps, n), steps[n])
  {
    assert steps[..n + 1] == steps[..n] + [steps[n]];
    RunBoth(INITIAL, steps[..n], [steps[n]]);
    hide Apply;
    assert [steps[n]][1..] == [];
    assert Run(After(steps, n), [steps[n]]) == Run(Apply(After(steps, n), steps[n]), []);
  }

  lemma RefStays(s: State, step: Step, kind: RefKind, g: GenId)
    requires Has(s, kind, g)
    ensures Has(Apply(s, step), kind, g)
  {
    hide ComposeStep, WritesFor, Activate, IsNextSeq;
    ComposeIsQuiet(s, step);
  }

  lemma {:induction false} RefsStay(steps: seq<Step>, kind: RefKind, g: GenId, i: nat, j: nat)
    requires i <= j <= |steps| && Has(After(steps, i), kind, g)
    ensures Has(After(steps, j), kind, g)
    decreases j - i
  {
    if i < j {
      hide Has, After;
      RefsStay(steps, kind, g, i, j - 1);
      AfterOneMore(steps, j - 1);
      RefStays(After(steps, j - 1), steps[j - 1], kind, g);
    }
  }

  /** Only a publisher that waits for a ref makes it, and stops waiting. */
  lemma RefIsMade(s: State, step: Step, kind: RefKind, g: GenId)
    requires !Has(s, kind, g) && Has(Apply(s, step), kind, g)
    ensures Makes(step, kind) && Waits(At(s, step.p), kind) && At(s, step.p).prepared.gen == g
    ensures !Waits(At(Apply(s, step), step.p), kind)
  {
    hide ComposeStep, WritesFor, Activate, IsNextSeq;
    ComposeIsQuiet(s, step);
  }

  /** The step at `made` creates the ref, for another publisher than `p`. */
  ghost predicate MadeByAnother(steps: seq<Step>, p: nat, kind: RefKind, g: GenId, made: nat)
    requires made < |steps|
  {
    Makes(steps[made], kind) && steps[made].p != p && !Has(After(steps, made), kind, g) &&
    Has(After(steps, made + 1), kind, g)
  }

  /** `p` looked for the ref in the step before `look`, found none, and has waited since. */
  ghost predicate LookedAt(steps: seq<Step>, p: nat, kind: RefKind, look: nat)
    requires 0 < look <= |steps|
  {
    var me := At(After(steps, |steps|), p);
    && Waits(me, kind) && Finds(steps[look - 1], kind) && steps[look - 1].p == p
    && !Has(After(steps, look), kind, me.prepared.gen)
    && forall k :: look <= k <= |steps| ==> At(After(steps, k), p) == me
  }

  /** Between the look of `p` and now another publisher has made the ref. */
  ghost predicate MadeSinceTheLook(steps: seq<Step>, p: nat, kind: RefKind) {
    exists look, made :: 0 < look <= made < |steps| && LookedAt(steps, p, kind, look) &&
      MadeByAnother(steps, p, kind, At(After(steps, |steps|), p).prepared.gen, made)
  }

  /** A step after which a publisher waits was its look, unless it waited before. */
  lemma WaitsSince(s: State, step: Step, p: nat, kind: RefKind)
    requires Waits(At(Apply(s, step), p), kind)
    ensures At(Apply(s, step), p) == At(s, p) ||
            (Finds(step, kind) && step.p == p && !Has(Apply(s, step), kind, At(Apply(s, step), p).prepared.gen))
  {
    hide ComposeStep, WritesFor, Activate, IsNextSeq;
    ComposeIsQuiet(s, step);
    ComposeGoesOn(s, step);
  }

  lemma ComposeGoesOn(s: State, step: Step)
    ensures At(s, step.p).Begun? ==>
              var me := At(ComposeStep(s, step.p, At(s, step.p).work, At(s, step.p).parent), step.p);
              me.Idle? || me.Composed?
  {
    hide NothingChanges, Candidate;
  }

  lemma {:induction false} ThereWasALook(steps: seq<Step>, n: nat, p: nat, kind: RefKind) returns (look: nat)
    requires n <= |steps| && Waits(At(After(steps, n), p), kind)
    ensures 0 < look <= n && Finds(steps[look - 1], kind) && steps[look - 1].p == p
    ensures !Has(After(steps, look), kind, At(After(steps, n), p).prepared.gen)
    ensures forall k :: look <= k <= n ==> At(After(steps, k), p) == At(After(steps, n), p)
    decreases n
  {
    look := n;
    if n > 0 {
      AfterOneMore(steps, n - 1);
      WaitsSince(After(steps, n - 1), steps[n - 1], p, kind);
      hide After, Apply, Has, Finds;
      if At(After(steps, n), p) == At(After(steps, n - 1), p) {
        look := ThereWasALook(steps, n - 1, p, kind);
      }
    }
  }

  lemma {:induction false} ThereWasAMaker(steps: seq<Step>, kind: RefKind, g: GenId, i: nat, n: nat) returns (made: nat)
    requires i <= n <= |steps| && !Has(After(steps, i), kind, g) && Has(After(steps, n), kind, g)
    ensures i <= made < n && !Has(After(steps, made), kind, g) && Has(After(steps, made + 1), kind, g)
    decreases n
  {
    made := n;
    if i < n {
      if Has(After(steps, n - 1), kind, g) {
        made := ThereWasAMaker(steps, kind, g, i, n - 1);
      } else {
        made := n - 1;
      }
    }
  }

  /** A ref that was not there at the look and is there now was made by another in between, and
      one that was made in between is there now. */
  lemma TakenMeansMadeSince(steps: seq<Step>, p: nat, kind: RefKind)
    requires Waits(At(After(steps, |steps|), p), kind)
    ensures Has(After(steps, |steps|), kind, At(After(steps, |steps|), p).prepared.gen) <==>
            MadeSinceTheLook(steps, p, kind)
  {
    var n := |steps|;
    var me := At(After(steps, n), p);
    var g := me.prepared.gen;
    if Has(After(steps, n), kind, g) {
      var look := ThereWasALook(steps, n, p, kind);
      var made := ThereWasAMaker(steps, kind, g, look, n);
      AfterOneMore(steps, made);
      RefIsMade(After(steps, made), steps[made], kind, g);
      assert At(After(steps, made + 1), p) == me;
      hide After, Apply, Has, Finds, Makes;
      assert LookedAt(steps, p, kind, look) && MadeByAnother(steps, p, kind, g, made);
    }
    if MadeSinceTheLook(steps, p, kind) {
      var look, made :| 0 < look <= made < n && LookedAt(steps, p, kind, look) &&
                       MadeByAnother(steps, p, kind, g, made);
      RefsStay(steps, kind, g, made + 1, n);
    }
  }

  // ------------------------------------------------------- when building gives up

  /** The next step of a publisher that is building. */
  predicate Builds(s: State, step: Step) {
    var me := At(s, step.p);
    || (step.Compose? && me.Begun?) || (step.FindAnchor? && me.Composed?) || (step.MakeAnchor? && me.Unanchored?)
    || (step.FindRelease? && me.Anchored?) || (step.MakeRelease? && me.Unreleased?)
  }

  /** The release's ref was made with another previous release. */
  predicate AnotherRelease(s: State, prepared: Prepared) {
    prepared.gen in s.releaseRefs && s.releaseRefs[prepared.gen] != prepared.release
  }

  /** Building gives up in exactly four cases: the work changes nothing, a ref of the same
      release was made with another previous one, or one of the two refs was made by another
      publisher after this one had looked for it and found none. */
  lemma BuildingStopsExactly(steps: seq<Step>, step: Step)
    requires Builds(Run(INITIAL, steps), step)
    ensures var s := Run(INITIAL, steps);
            var me := At(s, step.p);
            At(Apply(s, step), step.p).Idle? <==>
            || (me.Begun? && NothingChanges(me.work, me.parent))
            || (me.Unanchored? && MadeSinceTheLook(steps, step.p, AnchorRef))
            || (me.Anchored? && AnotherRelease(s, me.prepared))
            || (me.Unreleased? && MadeSinceTheLook(steps, step.p, ReleaseRef))
  {
    var s := Run(INITIAL, steps);
    var me := At(s, step.p);
    assert steps[..|steps|] == steps;
    assert After(steps, |steps|) == s;
    hide After, Run, MadeSinceTheLook, NothingChanges, Candidate;
    if me.Unanchored? {
      TakenMeansMadeSince(steps, step.p, AnchorRef);
    } else if me.Unreleased? {
      TakenMeansMadeSince(steps, step.p, ReleaseRef);
    } else if me.Begun? && me.parent.Some? {
      ParentIsAnchored(steps, step.p);
    }
  }

  lemma ParentIsAnchored(steps: seq<Step>, p: nat)
    requires At(Run(INITIAL, steps), p).Begun? && At(Run(INITIAL, steps), p).parent.Some?
    ensures At(Run(INITIAL, steps), p).parent.value in Run(INITIAL, steps).anchors
  {
    var s := Run(INITIAL, steps);
    ReachableInv(steps);
    RunKeepsRelease(INITIAL, steps);
    MeInv(s, p);
    hide Run, DbInv, HistoryInv;
  }

  /** And another previous release means that the race is lost: the pointer has left the parent. */
  lemma AnotherReleaseIsALostRace(steps: seq<Step>, p: nat)
    requires var s := Run(INITIAL, steps); At(s, p).Anchored? && AnotherRelease(s, At(s, p).prepared)
    ensures Run(INITIAL, steps).db.pointer != At(Run(INITIAL, steps), p).prepared.parent
  {
    var s := Run(INITIAL, steps);
    ReachableInv([]);
    RunKeepsRefs(INITIAL, steps);
    hide Run, OnChain;
    assert BuilderInv(s.db, At(s, p));
  }

  /** The five steps of one publisher that builds. */
  function BuildAlone(s: State, p: nat): State {
    Apply(Apply(Apply(Apply(Apply(s, Compose(p)), FindAnchor(p)), MakeAnchor(p)), FindRelease(p)), MakeRelease(p))
  }

  lemma AnchorsAlone(s: State, p: nat)
    requires At(s, p).Composed?
    ensures var s' := Apply(Apply(s, FindAnchor(p)), MakeAnchor(p));
            At(s', p) == Anchored(At(s, p).prepared) && s'.releaseRefs == s.releaseRefs
  {
    hide ComposeStep, ActivateStep, WritesFor, IsNextSeq;
  }

  lemma ReleasesAlone(s: State, p: nat)
    requires At(s, p).Anchored? && !AnotherRelease(s, At(s, p).prepared)
    ensures At(Apply(Apply(s, FindRelease(p)), MakeRelease(p)), p).Built?
  {
    hide ComposeStep, ActivateStep, WritesFor, IsNextSeq;
  }

  lemma IdleBuildsNothing(s: State, step: Step)
    requires At(s, step.p).Idle? && !step.Begin? && !step.Repair? && !step.Crash?
    ensures Apply(s, step) == s
  {
  }

  /** Undisturbed, and with the pointer still at the parent, building succeeds unless nothing
      changes, whatever attempts of the same work were broken off before. */
  lemma UndisturbedBuildSucceeds(steps: seq<Step>, p: nat)
    requires var s := Run(INITIAL, steps); At(s, p).Begun? && At(s, p).parent == s.db.pointer
    ensures var s := Run(INITIAL, steps);
            At(BuildAlone(s, p), p).Built? <==> !NothingChanges(At(s, p).work, At(s, p).parent)
  {
    var s := Run(INITIAL, steps);
    var me := At(s, p);
    if me.parent.Some? {
      ParentIsAnchored(steps, p);
    }
    ReachableInv([]);
    RunKeepsRefs(INITIAL, steps);
    CandidateIsCurrent(s, me.work);
    var s1 := Apply(s, Compose(p));
    assert s1 == ComposeStep(s, p, me.work, me.parent);
    hide Run, Apply, NothingChanges, Candidate, RefsCurrent, Inv;
    if NothingChanges(me.work, me.parent) {
      IdleBuildsNothing(s1, FindAnchor(p));
      IdleBuildsNothing(s1, MakeAnchor(p));
      IdleBuildsNothing(s1, FindRelease(p));
      IdleBuildsNothing(s1, MakeRelease(p));
    } else {
      AnchorsAlone(s1, p);
      ReleasesAlone(Apply(Apply(s1, FindAnchor(p)), MakeAnchor(p)), p);
    }
  }

  /** A ref of the pointer's child carries the release that would be built now. */
  lemma CandidateIsCurrent(s: State, work: Work)
    requires RefsCurrent(s)
    ensures !AnotherRelease(s, Candidate(work, s.db.pointer, s.db.release))
  {
    hide Survivors, OnChain;
  }

  /** Two publishers with the same work: both look for the generation's ref, both find none, and
      the one that creates it second fails, although the pointer has not moved. */
  lemma TwoPublishersCollide(s: State, p: nat, q: nat, work: Work)
    requires p != q && At(s, p).Idle? && At(s, q).Idle? && !NothingChanges(work, s.db.pointer)
    requires s.db.pointer.Some? ==> s.db.pointer.value in s.anchors
    requires Candidate(work, s.db.pointer, s.db.release).gen !in s.anchors
    ensures var begun := Apply(Apply(s, Begin(p, work)), Begin(q, work));
            var composed := Apply(Apply(begun, Compose(p)), Compose(q));
            var looked := Apply(Apply(composed, FindAnchor(p)), FindAnchor(q));
            var made := Apply(Apply(looked, MakeAnchor(p)), MakeAnchor(q));
            made.db == s.db && At(made, p).Anchored? && At(made, q).Idle?
  {
    hide NothingChanges, Candidate, ActivateStep, WritesFor, IsNextSeq;
    var candidate := Candidate(work, s.db.pointer, s.db.release);
    var begun := Apply(Apply(s, Begin(p, work)), Begin(q, work));
    assert begun.db == s.db && begun.anchors == s.anchors;
    assert At(begun, p) == At(begun, q) == Begun(work, s.db.pointer);
    var composed := Apply(Apply(begun, Compose(p)), Compose(q));
    assert composed.db == s.db && composed.anchors == s.anchors;
    assert At(composed, p) == At(composed, q) == Composed(candidate);
    hide ComposeStep;
    var looked := Apply(Apply(composed, FindAnchor(p)), FindAnchor(q));
    assert looked.db == s.db && looked.anchors == s.anchors;
    assert At(looked, p) == At(looked, q) == Unanchored(candidate);
  }
}
