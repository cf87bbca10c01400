/**
 What the invariant of the protocol means for a reader of the tables, in every state
 that any interleaving of publishers reaches.
 */
module PublicationTheorems {
  import opened Options
  import opened Publication
  import opened PublicationSafety

  // --------------------------------------------------------- one published chain

  /** At most one generation is published, and it is the pointer's target. */
  lemma OnePublished(steps: seq<Step>, g: GenId)
    requires g in Run(INITIAL, steps).db.rows
    ensures var db := Run(INITIAL, steps).db;
            db.rows[g].phase == Published <==> db.pointer == Some(g)
  {
    ReachableInv(steps);
  }

  lemma {:induction false} ChainLinks(top: Option<GenId>, i: nat)
    requires i < |Chain(top)|
    ensures Chain(top)[i].parent == if i == 0 then None else Some(Chain(top)[i - 1])
    ensures i == |Chain(top)| - 1 ==> top == Some(Chain(top)[i])
  {
    var parent := top.value.parent;
    if i < |Chain(parent)| {
      ChainLinks(parent, i);
    } else if parent.Some? {
      ChainLinks(parent, i - 1);
    }
  }

  lemma {:induction false} ChainSeqGrows(db: Db, top: Option<GenId>, i: nat, j: nat)
    requires RowsInv(db) && Registered(db, top) && i < j < |Chain(top)|
    ensures Chain(top)[i] in db.rows && Chain(top)[j] in db.rows
    ensures db.rows[Chain(top)[i]].seq_ + (j - i) <= db.rows[Chain(top)[j]].seq_
    decreases j - i
  {
    ChainIsRegistered(db, top, Chain(top)[i]);
    ChainIsRegistered(db, top, Chain(top)[j]);
    ChainLinks(top, j);
    if i < j - 1 {
      ChainSeqGrows(db, top, i, j - 1);
    }
  }

  /** The outbox is one parent chain from a first generation to the pointer. */
  ghost predicate OutboxLinks(db: Db) {
    && (forall i :: 0 <= i < |db.outbox| ==>
          db.outbox[i].gen.parent == if i == 0 then None else Some(db.outbox[i - 1].gen))
    && db.pointer == if db.outbox == [] then None else Some(db.outbox[|db.outbox| - 1].gen)
  }

  /** Its generations are registered with growing sequence numbers, hence all different. */
  ghost predicate OutboxGrows(db: Db) {
    && (forall i :: 0 <= i < |db.outbox| ==> db.outbox[i].gen in db.rows)
    && (forall i, j :: 0 <= i < j < |db.outbox| ==>
          db.rows[db.outbox[i].gen].seq_ < db.rows[db.outbox[j].gen].seq_)
  }

  /** It lists exactly the generations that were activated. */
  ghost predicate OutboxListsActivated(db: Db) {
    forall g :: g in db.rows ==>
      (db.rows[g].phase == Published || db.rows[g].phase == Superseded <==>
       exists i :: 0 <= i < |db.outbox| && db.outbox[i].gen == g)
  }

  lemma OutboxIsLinked(db: Db)
    requires DbInv(db)
    ensures OutboxLinks(db)
  {
    var chain := Chain(db.pointer);
    forall i | 0 <= i < |db.outbox|
      ensures db.outbox[i].gen.parent == if i == 0 then None else Some(db.outbox[i - 1].gen)
    {
      ChainLinks(db.pointer, i);
    }
    if db.pointer.Some? {
      ChainOfChild(db.pointer.value);
    }
  }

  lemma OutboxIsGrowing(db: Db)
    requires DbInv(db)
    ensures OutboxGrows(db)
  {
    forall i | 0 <= i < |db.outbox|
      ensures db.outbox[i].gen in db.rows
    {
      ChainIsRegistered(db, db.pointer, Chain(db.pointer)[i]);
    }
    forall i, j | 0 <= i < j < |db.outbox|
      ensures db.rows[db.outbox[i].gen].seq_ < db.rows[db.outbox[j].gen].seq_
    {
      ChainSeqGrows(db, db.pointer, i, j);
    }
  }

  lemma OutboxIsActivated(db: Db)
    requires DbInv(db)
    ensures OutboxListsActivated(db)
  {
    forall g | g in db.rows
      ensures db.rows[g].phase == Published || db.rows[g].phase == Superseded <==>
              exists i :: 0 <= i < |db.outbox| && db.outbox[i].gen == g
    {
      if db.pointer == Some(g) {
        ChainOfChild(g);
      }
      if OnChain(db, g) {
        var i :| 0 <= i < |Chain(db.pointer)| && Chain(db.pointer)[i] == g;
        assert db.outbox[i].gen == g;
      }
    }
  }

  /** In every reachable state the outbox is the history of the pointer: one parent chain
      that ends in it, with growing numbers, of exactly the activated generations. */
  lemma OutboxIsTheChain(steps: seq<Step>)
    ensures var db := Run(INITIAL, steps).db;
            OutboxLinks(db) && OutboxGrows(db) && OutboxListsActivated(db)
  {
    ReachableInv(steps);
    OutboxIsLinked(Run(INITIAL, steps).db);
    OutboxIsGrowing(Run(INITIAL, steps).db);
    OutboxIsActivated(Run(INITIAL, steps).db);
  }

  // ------------------------------------------------ refinement of sequential publishing

  lemma {:induction false} ReplayOfPrefix(s: State, n: nat)
    requires HistoryInv(s) && n <= |s.history|
    ensures Replay(s.history[..n]) == if n == 0 then map[] else s.history[n - 1].gen.content
  {
    if n > 0 {
      ReplayOfPrefix(s, n - 1);
      assert s.history[..n][..n - 1] == s.history[..n - 1];
      ChainLinks(s.db.pointer, n - 1);
      assert Faithful(s.history[n - 1]);
    }
  }

  /** Concurrent publishing refines the sequential specification: whatever the
      interleaving, the current generation holds exactly what replaying the activations,
      one after the other in their order, would give. */
  lemma PublishingRefinesReplay(steps: seq<Step>)
    ensures var s := Run(INITIAL, steps);
            ContentOf(s.db.pointer) == Replay(s.history)
  {
    ReachableInv(steps);
    var s := Run(INITIAL, steps);
    ReplayOfPrefix(s, |s.history|);
    assert s.history[..|s.history|] == s.history;
    if |s.history| > 0 {
      ChainLinks(s.db.pointer, |s.history| - 1);
    }
  }

  /** Between two consecutive activations an assertion disappears exactly when the later
      one revokes the claim it then stands for. */
  lemma AssertionsLeaveOnlyByRevoke(steps: seq<Step>, i: nat, a: AssertionId)
    requires 0 < i < |Run(INITIAL, steps).history|
    requires a in Run(INITIAL, steps).history[i - 1].gen.content
    ensures var history := Run(INITIAL, steps).history;
            var before, step := history[i - 1].gen.content, history[i];
            a !in step.gen.content <==> (before + step.added)[a].claim in step.revoked
  {
    ReachableInv(steps);
    var s := Run(INITIAL, steps);
    ChainLinks(s.db.pointer, i);
    assert Faithful(s.history[i]);
  }

  // ---------------------------------------------------- when an activation is refused

  /** Refs and rows only grow; everyone but the publisher at step is as before. */
  lemma ReleaseFrame(s: State, s': State, p: nat)
    requires ReleaseInv(s) && RefInv(s'.anchors, s'.releaseRefs, At(s', p))
    requires s.anchors <= s'.anchors
    requires forall g :: g in s.releaseRefs ==> g in s'.releaseRefs && s'.releaseRefs[g] == s.releaseRefs[g]
    requires forall g :: g in s'.db.rows ==>
               (g in s.db.rows && s'.db.rows[g].release == s.db.rows[g].release) ||
               (g in s'.anchors && HasRef(s'.releaseRefs, g, s'.db.rows[g].release))
    requires s'.publishers == s.publishers || s'.publishers == s.publishers[p := At(s', p)]
    ensures ReleaseInv(s')
  {
  }

  lemma StepsRefInv(s: State, step: Step)
    requires RefInv(s.anchors, s.releaseRefs, At(s, step.p))
    ensures RefInv(Apply(s, step).anchors, Apply(s, step).releaseRefs, At(Apply(s, step), step.p))
  {
    hide Survivors, WritesFor, Register, SetReady, Activate, IsNextSeq, DoWrite, NothingChanges, Candidate;
  }

  lemma StepsGrowRefs(s: State, step: Step)
    ensures s.anchors <= Apply(s, step).anchors
    ensures forall g :: g in s.releaseRefs ==>
              g in Apply(s, step).releaseRefs && Apply(s, step).releaseRefs[g] == s.releaseRefs[g]
  {
    hide Survivors, WritesFor, Register, SetReady, Activate, IsNextSeq, DoWrite, NothingChanges, Candidate;
  }

  lemma StepsPublisher(s: State, step: Step)
    ensures var s' := Apply(s, step);
            s'.publishers == s.publishers || s'.publishers == s.publishers[step.p := At(s', step.p)]
  {
    hide Survivors, WritesFor, Register, SetReady, Activate, IsNextSeq, DoWrite, NothingChanges, Candidate;
  }

  lemma StepsRows(s: State, step: Step, g: GenId)
    requires ReleaseInv(s) && g in Apply(s, step).db.rows
    ensures var s' := Apply(s, step);
            || (g in s.db.rows && s'.db.rows[g].release == s.db.rows[g].release)
            || (g in s'.anchors && HasRef(s'.releaseRefs, g, s'.db.rows[g].release))
  {
    assert RefInv(s.anchors, s.releaseRefs, At(s, step.p));
    hide Survivors, WritesFor, IsNextSeq, NothingChanges, Candidate, ReleaseInv;
  }

  lemma ReleaseKept(s: State, step: Step)
    requires ReleaseInv(s)
    ensures ReleaseInv(Apply(s, step))
  {
    assert RefInv(s.anchors, s.releaseRefs, At(s, step.p));
    hide Apply, RefInv, HasRef;
    StepsRefInv(s, step);
    StepsGrowRefs(s, step);
    StepsPublisher(s, step);
    forall g | g in Apply(s, step).db.rows
      ensures || (g in s.db.rows && Apply(s, step).db.rows[g].release == s.db.rows[g].release)
              || (g in Apply(s, step).anchors &&
                  HasRef(Apply(s, step).releaseRefs, g, Apply(s, step).db.rows[g].release))
    {
      StepsRows(s, step, g);
    }
    hide ReleaseInv;
    ReleaseFrame(s, Apply(s, step), step.p);
  }

  lemma {:induction false} RunKeepsRelease(s: State, steps: seq<Step>)
    requires ReleaseInv(s)
    ensures ReleaseInv(Run(s, steps))
    decreases |steps|
  {
    if steps != [] {
      ReleaseKept(s, steps[0]);
      RunKeepsRelease(Apply(s, steps[0]), steps[1..]);
    }
  }

  /** A publisher whose generation is ready is refused only when the pointer has left the
      parent it read; the program's other checks never fire. */
  lemma OnlyALostRaceIsRefused(steps: seq<Step>, p: nat)
    requires var s := Run(INITIAL, steps);
             At(s, p).Inserted? &&
             var g := At(s, p).prepared.gen;
             g in s.db.rows && s.db.rows[g].phase == ReadModelsReady &&
             (g, WikiFiles) in s.db.ready && (g, CitationIndex) in s.db.ready
    ensures var s := Run(INITIAL, steps);
            var prepared := At(s, p).prepared;
            var result := Activate(s.db, prepared.gen, prepared.parent, prepared.release);
            if s.db.pointer == prepared.parent then result.Ok? else result == Err(CasConflict)
  {
    RunKeepsRelease(INITIAL, steps);
  }

  lemma {:induction false} ChainIsInjective(a: Option<GenId>, b: Option<GenId>)
    requires Chain(a) == Chain(b)
    ensures a == b
  {
    if a.Some? && b.Some? {
      assert Chain(a)[|Chain(a)| - 1] == a.value;
      assert Chain(b)[|Chain(b)| - 1] == b.value;
    }
  }

  /** The transaction itself never compares the row's parent with the expected one.  Called
      with any expected parent it keeps the outbox equal to the chain exactly when that
      parent is the generation's own, which is how the publisher calls it. */
  lemma ActivationKeepsChainExactly(db: Db, g: GenId, expected: Option<GenId>, release: Release)
    requires OutboxInv(db) && Activate(db, g, expected, release).Ok?
    ensures OutboxInv(Activate(db, g, expected, release).value) <==> expected == g.parent
  {
    var db' := Activate(db, g, expected, release).value;
    ChainOfChild(g);
    if expected == g.parent {
      assert OutboxInv(db');
    } else if OutboxInv(db') {
      assert |Chain(g.parent)| == |Chain(expected)|;
      forall i | 0 <= i < |Chain(g.parent)|
        ensures Chain(g.parent)[i] == Chain(expected)[i]
      {
        assert db'.outbox[i] == db.outbox[i];
        assert Chain(Some(g))[i] == Chain(g.parent)[i];
      }
      assert Chain(g.parent) == Chain(expected);
      ChainIsInjective(g.parent, expected);
    }
  }

  /** So a generation that was built on anything else than the pointer's target is activated,
      once it is registered and ready, by a caller who expects the pointer as it is; and the
      chain breaks. */
  lemma AnyParentIsActivated(db: Db, g: GenId, release: Release, seq_: nat)
    requires OutboxInv(db) && g !in db.rows && g.parent != db.pointer
    ensures var registered := Register(db, g, release, seq_);
            var marked := registered.(ready := registered.ready + {(g, WikiFiles)} + {(g, CitationIndex)});
            var result := Activate(SetReady(marked, g), g, db.pointer, release);
            result.Ok? && result.value.pointer == Some(g) && !OutboxInv(result.value)
  {
    var registered := Register(db, g, release, seq_);
    var marked := registered.(ready := registered.ready + {(g, WikiFiles)} + {(g, CitationIndex)});
    hide Chain;
    assert OutboxInv(SetReady(marked, g));
    ActivationKeepsChainExactly(SetReady(marked, g), g, db.pointer, release);
    hide OutboxInv;
  }

  // ------------------------------------------------------- read models of activations

  ghost predicate ModelsReady(db: Db) {
    forall i :: 0 <= i < |db.outbox| ==>
      (db.outbox[i].gen, WikiFiles) in db.ready && (db.outbox[i].gen, CitationIndex) in db.ready
  }

  lemma ApplyKeepsModels(s: State, step: Step)
    requires ModelsReady(s.db)
    ensures ModelsReady(Apply(s, step).db)
  {
    hide Survivors, WritesFor;
  }

  lemma {:induction false} RunKeepsModels(s: State, steps: seq<Step>)
    requires ModelsReady(s.db)
    ensures ModelsReady(Run(s, steps).db)
    decreases |steps|
  {
    if steps != [] {
      hide ModelsReady;
      ApplyKeepsModels(s, steps[0]);
      RunKeepsModels(Apply(s, steps[0]), steps[1..]);
    }
  }

  /** In every reachable state both read models were marked for every generation that is or
      was published. */
  lemma ActivatedHasReadModels(steps: seq<Step>, g: GenId)
    requires g in Run(INITIAL, steps).db.rows
    requires Run(INITIAL, steps).db.rows[g].phase == Published || Run(INITIAL, steps).db.rows[g].phase == Superseded
    ensures var db := Run(INITIAL, steps).db; (g, WikiFiles) in db.ready && (g, CitationIndex) in db.ready
  {
    OutboxIsTheChain(steps);
    RunKeepsModels(INITIAL, steps);
    hide Run;
    var db := Run(INITIAL, steps).db;
    var i :| 0 <= i < |db.outbox| && db.outbox[i].gen == g;
  }
}
