/**
 What every run of the publication protocol keeps: one published generation, one parent
 chain that the outbox repeats, sequence numbers that grow along it, and contents that
 are exactly the replay of the activations.
 */
module PublicationSafety {
  import opened Options
  import opened Publication

  ghost predicate RowsInv(db: Db) {
    forall g :: g in db.rows ==>
      && db.rows[g].parent == g.parent
      && (g.parent.Some? ==> g.parent.value in db.rows && db.rows[g.parent.value].seq_ < db.rows[g].seq_)
  }

  ghost predicate OnChain(db: Db, g: GenId) {
    g in Chain(db.pointer)
  }

  ghost predicate PointerInv(db: Db) {
    && (db.pointer.Some? ==> db.pointer.value in db.rows)
    && (db.release == if db.pointer.None? then None
                      else if db.pointer.value in db.rows then Some(db.rows[db.pointer.value].release)
                      else None)
    && (forall g :: g in db.rows ==> (db.rows[g].phase == Published <==> db.pointer == Some(g)))
    && (forall g :: g in db.rows ==> (db.rows[g].phase == Superseded <==> OnChain(db, g) && db.pointer != Some(g)))
  }

  ghost predicate OutboxInv(db: Db) {
    && |db.outbox| == |Chain(db.pointer)|
    && forall i :: 0 <= i < |db.outbox| ==> db.outbox[i].gen == Chain(db.pointer)[i]
  }

  ghost predicate Written(db: Db, g: GenId, w: Write) {
    match w
    case Member(a) => (g, a) in db.members
    case Accept(c) => (g, c) in db.resolution && db.resolution[(g, c)] == Accepted
    case Retract(c) => (g, c) in db.resolution && db.resolution[(g, c)] == Retracted
    case Index(c) => (g, c) in db.index
  }

  /** A resolution row says "accepted" exactly for the claims of its generation. */
  ghost predicate TablesInv(db: Db) {
    && (forall r :: r in db.resolution ==> (db.resolution[r] == Accepted <==> r.1 in ClaimsOf(r.0.content)))
    && (forall r :: r in db.index ==> r.1 in ClaimsOf(r.0.content))
    && (forall r :: r in db.members ==> r.1 in r.0.content)
  }

  ghost predicate Materialized(db: Db, g: GenId) {
    forall w :: w in WritesFor(g, {}) ==> Written(db, g, w)
  }

  ghost predicate SearchInv(db: Db) {
    db.searchPointer.Some? ==> OnChain(db, db.searchPointer.value) && Materialized(db, db.searchPointer.value)
  }

  ghost predicate DbInv(db: Db) {
    RowsInv(db) && PointerInv(db) && OutboxInv(db) && TablesInv(db) && SearchInv(db)
  }

  ghost predicate Registered(db: Db, g: Option<GenId>) {
    g.Some? ==> g.value in db.rows
  }

  ghost predicate PreparedInv(db: Db, prepared: Prepared) {
    && prepared.gen.parent == prepared.parent
    && prepared.gen.content ==
       Survivors(ContentOf(prepared.parent), prepared.work.added, prepared.work.revoked)
    && Registered(db, prepared.parent)
  }

  ghost predicate PublisherInv(db: Db, me: Publisher) {
    match me
    case Idle => true
    case Begun(work, parent) => Registered(db, parent)
    case Composed(prepared) => PreparedInv(db, prepared)
    case Unanchored(prepared) => PreparedInv(db, prepared)
    case Anchored(prepared) => PreparedInv(db, prepared)
    case Unreleased(prepared) => PreparedInv(db, prepared)
    case Built(prepared) => PreparedInv(db, prepared)
    case Numbered(prepared, seq_) =>
      && PreparedInv(db, prepared)
      && (prepared.parent.Some? ==> db.rows[prepared.parent.value].seq_ < seq_)
    case Inserted(prepared) => PreparedInv(db, prepared) && prepared.gen in db.rows
    case Posting(g, revoked, pending) =>
      && OnChain(db, g)
      && revoked !! ClaimsOf(g.content)
      && pending <= WritesFor(g, revoked)
      && forall w :: w in WritesFor(g, revoked) && w !in pending ==> Written(db, g, w)
  }

  /** Each activation is recorded with the work that made its generation from its parent. */
  ghost predicate Faithful(a: Activation) {
    a.gen.content == Survivors(ContentOf(a.gen.parent), a.added, a.revoked)
  }

  ghost predicate HistoryInv(s: State) {
    && |s.history| == |Chain(s.db.pointer)|
    && (forall i :: 0 <= i < |s.history| ==> s.history[i].gen == Chain(s.db.pointer)[i])
    && (forall i :: 0 <= i < |s.history| ==> Faithful(s.history[i]))
  }

  /** The release ref of a generation is created once, so everyone has the same one. */
  ghost predicate HasRef(refs: map<GenId, Release>, g: GenId, release: Release) {
    g in refs && refs[g] == release
  }

  ghost predicate RefInv(anchors: set<GenId>, refs: map<GenId, Release>, me: Publisher) {
    match me
    case Anchored(prepared) => prepared.gen in anchors
    case Unreleased(prepared) => prepared.gen in anchors
    case Built(prepared) => prepared.gen in anchors && HasRef(refs, prepared.gen, prepared.release)
    case Numbered(prepared, _) => prepared.gen in anchors && HasRef(refs, prepared.gen, prepared.release)
    case Inserted(prepared) => prepared.gen in anchors && HasRef(refs, prepared.gen, prepared.release)
    case _ => true
  }

  ghost predicate ReleaseInv(s: State) {
    && (forall g :: g in s.db.rows ==> g in s.anchors && HasRef(s.releaseRefs, g, s.db.rows[g].release))
    && (forall p :: p in s.publishers ==> RefInv(s.anchors, s.releaseRefs, s.publishers[p]))
  }

  ghost predicate Inv(s: State) {
    && DbInv(s.db)
    && HistoryInv(s)
    && (forall p :: p in s.publishers ==> PublisherInv(s.db, s.publishers[p]))
  }

  // ------------------------------------------------------------ growth of the database

  /** How the tables may change: rows keep their parent and number, the chain gets
      longer at its end, and what was written stays written. */
  ghost predicate Grows(db: Db, db': Db) {
    && (forall g :: g in db.rows ==>
          g in db'.rows && db'.rows[g].seq_ == db.rows[g].seq_)
    && (forall g :: OnChain(db, g) ==> OnChain(db', g))
    && (forall r :: r in db.members ==> r in db'.members)
    && (forall r :: r in db.index ==> r in db'.index)
    && (forall r :: r in db.resolution ==> r in db'.resolution && db'.resolution[r] == db.resolution[r])
  }

  lemma PublisherStays(db: Db, db': Db, me: Publisher)
    requires Grows(db, db') && PublisherInv(db, me)
    ensures PublisherInv(db', me)
  {
    if me.Posting? {
      forall w | w in WritesFor(me.gen, me.revoked) && w !in me.pending
        ensures Written(db', me.gen, w)
      {
        assert Written(db, me.gen, w);
      }
    }
  }

  /** The frame of a step of publisher `p`: everyone else only sees the tables grow. */
  lemma StepKeepsInv(s: State, s': State, p: nat, to: Publisher)
    requires Inv(s) && s'.publishers == s.publishers[p := to]
    requires Grows(s.db, s'.db) && DbInv(s'.db) && HistoryInv(s') && PublisherInv(s'.db, to)
    ensures Inv(s')
  {
    forall q | q in s'.publishers
      ensures PublisherInv(s'.db, s'.publishers[q])
    {
      if q != p {
        PublisherStays(s.db, s'.db, s.publishers[q]);
      }
    }
  }

  lemma MeInv(s: State, p: nat)
    requires Inv(s)
    ensures PublisherInv(s.db, At(s, p))
  {
  }

  // -------------------------------------------------------------------- the steps

  lemma ChainOfChild(g: GenId)
    ensures Chain(Some(g)) == Chain(g.parent) + [g]
  {
  }

  /** A step that leaves the pointer and the history alone. */
  lemma HistorySame(s: State, s': State)
    requires HistoryInv(s) && s'.db.pointer == s.db.pointer && s'.history == s.history
    ensures HistoryInv(s')
  {
  }

  lemma RegisterKeepsRows(db: Db, g: GenId, release: Release, seq_: nat)
    requires RowsInv(db) && PointerInv(db) && Registered(db, g.parent) && g !in db.rows
    requires g.parent.Some? ==> db.rows[g.parent.value].seq_ < seq_
    ensures var db' := Register(db, g, release, seq_);
            RowsInv(db') && PointerInv(db') && Grows(db, db')
  {
    if OnChain(db, g) {
      ChainIsRegistered(db, db.pointer, g);
    }
    hide Chain;
  }

  lemma RegisterKeepsDb(db: Db, g: GenId, release: Release, seq_: nat)
    requires DbInv(db) && Registered(db, g.parent)
    requires g.parent.Some? ==> db.rows[g.parent.value].seq_ < seq_
    ensures DbInv(Register(db, g, release, seq_)) && Grows(db, Register(db, g, release, seq_))
  {
    if g !in db.rows {
      var db' := Register(db, g, release, seq_);
      RegisterKeepsRows(db, g, release, seq_);
      TablesUnchanged(db, db');
      hide RowsInv, PointerInv, SearchInv, Grows, Chain;
    } else {
      hide RowsInv, PointerInv, SearchInv, OutboxInv, TablesInv;
    }
  }

  /** A step that leaves the chain and the written tables alone keeps the search pointer good. */
  lemma TablesUnchanged(db: Db, db': Db)
    requires SearchInv(db) && Grows(db, db') && db'.searchPointer == db.searchPointer
    ensures SearchInv(db')
  {
    if db'.searchPointer.Some? {
      var t := db'.searchPointer.value;
      forall v | v in WritesFor(t, {})
        ensures Written(db', t, v)
      {
        assert Written(db, t, v);
      }
    }
  }

  lemma InsertKeepsInv(s: State, p: nat)
    requires Inv(s) && At(s, p).Numbered?
    ensures Inv(Apply(s, Insert(p)))
  {
    MeInv(s, p);
    var me := At(s, p);
    RegisterKeepsDb(s.db, me.prepared.gen, me.prepared.release, me.seq_);
    HistorySame(s, Apply(s, Insert(p)));
    hide DbInv, HistoryInv;
    StepKeepsInv(s, Apply(s, Insert(p)), p, Inserted(me.prepared));
  }

  /** Everything on a chain that ends in a registered row is registered. */
  lemma {:induction false} ChainIsRegistered(db: Db, top: Option<GenId>, g: GenId)
    requires RowsInv(db) && Registered(db, top) && g in Chain(top)
    ensures g in db.rows
  {
    if top.Some? && g != top.value {
      ChainIsRegistered(db, top.value.parent, g);
    }
  }

  lemma ActivateKeepsInv(s: State, p: nat)
    requires Inv(s) && At(s, p).Inserted?
    ensures Inv(Apply(s, Activating(p)))
  {
    hide DbInv, HistoryInv, Grows, PreparedInv, Activate;
    MeInv(s, p);
    var me := At(s, p);
    GrowsHere(s.db);
    HistorySame(s, Move(s, p, Idle));
    match Activate(s.db, me.prepared.gen, me.prepared.parent, me.prepared.release)
    case Err(_) =>
      StepKeepsInv(s, Move(s, p, Idle), p, Idle);
    case Ok(db) =>
      hide Inv;
      ActivatedKeepsInv(s, p, me.prepared, db);
  }

  lemma ActivatedKeepsInv(s: State, p: nat, prepared: Prepared, db: Db)
    requires Inv(s) && PreparedInv(s.db, prepared)
    requires Activate(s.db, prepared.gen, prepared.parent, prepared.release) == Ok(db)
    ensures var work := prepared.work;
            var s' := s.(db := db, history := s.history + [Activation(prepared.gen, work.added, work.revoked)]);
            Inv(Move(s', p, Posting(prepared.gen, work.revoked, WritesFor(prepared.gen, work.revoked))))
  {
    hide DbInv, HistoryInv, PreparedInv, Grows, OnChain, PublisherInv;
    var g, work := prepared.gen, prepared.work;
    var a := Activation(g, work.added, work.revoked);
    var me := Posting(g, work.revoked, WritesFor(g, work.revoked));
    FaithfulWork(s.db, prepared);
    ActivatedFrom(s.db, g, prepared.parent, prepared.release);
    ActivateKeepsDb(s.db, g, prepared.release);
    hide Activate;
    HistoryGrows(s, db, a);
    PreparedStays(s.db, db, prepared);
    PostingStarts(db, prepared);
    HistorySame(s.(db := db, history := s.history + [a]), Move(s.(db := db, history := s.history + [a]), p, me));
    StepKeepsInv(s, Move(s.(db := db, history := s.history + [a]), p, me), p, me);
  }

  lemma ActivatedFrom(db: Db, g: GenId, expected: Option<GenId>, release: Release)
    requires Activate(db, g, expected, release).Ok?
    ensures db.pointer == expected
  {
  }

  lemma GrowsHere(db: Db)
    ensures Grows(db, db)
  {
  }

  lemma PreparedStays(db: Db, db': Db, prepared: Prepared)
    requires PreparedInv(db, prepared) && Grows(db, db')
    ensures PreparedInv(db', prepared)
  {
  }

  lemma FaithfulWork(db: Db, prepared: Prepared)
    requires PreparedInv(db, prepared)
    ensures prepared.gen.parent == prepared.parent
    ensures Faithful(Activation(prepared.gen, prepared.work.added, prepared.work.revoked))
  {
  }

  lemma PostingStarts(db: Db, prepared: Prepared)
    requires PreparedInv(db, prepared) && OnChain(db, prepared.gen)
    ensures PublisherInv(db, Posting(prepared.gen, prepared.work.revoked,
                                     WritesFor(prepared.gen, prepared.work.revoked)))
  {
  }

  lemma ActivateKeepsDb(db: Db, g: GenId, release: Release)
    requires DbInv(db) && Activate(db, g, g.parent, release).Ok?
    ensures var db' := Activate(db, g, g.parent, release).value;
            DbInv(db') && Grows(db, db') && OnChain(db', g) && db'.pointer == Some(g)
  {
    var db' := Activate(db, g, g.parent, release).value;
    ChainOfChild(g);
    assert Chain(db'.pointer) == Chain(db.pointer) + [g];
    ActivateKeepsRows(db, g, release);
    ActivateGrows(db, g, release);
    TablesUnchanged(db, db');
  }

  lemma ActivateGrows(db: Db, g: GenId, release: Release)
    requires Activate(db, g, g.parent, release).Ok?
    ensures Grows(db, Activate(db, g, g.parent, release).value)
  {
    ChainOfChild(g);
  }

  /** What activation does to the row of `h`. */
  lemma ActivatedRow(db: Db, g: GenId, release: Release, h: GenId)
    requires Activate(db, g, g.parent, release).Ok?
    ensures var db' := Activate(db, g, g.parent, release).value;
            && db'.pointer == Some(g) && db'.release == Some(release)
            && (h in db'.rows <==> h in db.rows)
            && (h in db.rows ==>
                  && db'.rows[h].parent == db.rows[h].parent && db'.rows[h].seq_ == db.rows[h].seq_
                  && db'.rows[h].release == db.rows[h].release
                  && db'.rows[h].phase == (if h == g && g.parent != Some(g) then Published
                                           else if db.pointer == Some(h) then Superseded
                                           else db.rows[h].phase))
  {
  }

  lemma ActivateKeepsRows(db: Db, g: GenId, release: Release)
    requires DbInv(db) && Activate(db, g, g.parent, release).Ok?
    ensures var db' := Activate(db, g, g.parent, release).value;
            RowsInv(db') && PointerInv(db')
  {
    var db' := Activate(db, g, g.parent, release).value;
    ChainOfChild(g);
    ActivatedFrom(db, g, g.parent, release);
    ReadyIsOffChain(db, g, release);
    if db.pointer.Some? {
      ChainOfChild(db.pointer.value);
    }
    forall h
      ensures h in db'.rows <==> h in db.rows
      ensures h in db.rows ==> db'.rows[h].parent == db.rows[h].parent && db'.rows[h].seq_ == db.rows[h].seq_
    {
      ActivatedRow(db, g, release, h);
    }
    ActivatedRow(db, g, release, g);
    forall h | h in db'.rows
      ensures db'.rows[h].phase == Published <==> h == g
      ensures db'.rows[h].phase == Superseded <==> OnChain(db', h) && h != g
    {
      ActivatedRow(db, g, release, h);
      assert OnChain(db', h) <==> OnChain(db, h) || h == g;
    }
    hide Activate, Chain, OutboxInv, TablesInv, SearchInv, OnChain;
  }

  lemma ReadyIsOffChain(db: Db, g: GenId, release: Release)
    requires DbInv(db) && Activate(db, g, g.parent, release).Ok?
    ensures g in db.rows && db.rows[g].release == release
    ensures !OnChain(db, g) && db.pointer != Some(g) && g.parent != Some(g)
  {
    assert db.rows[g].phase == ReadModelsReady;
    hide Chain;
  }

  lemma HistoryGrows(s: State, db': Db, a: Activation)
    requires HistoryInv(s)
    requires db'.pointer == Some(a.gen) && a.gen.parent == s.db.pointer
    requires Faithful(a)
    ensures HistoryInv(s.(db := db', history := s.history + [a]))
  {
    ChainOfChild(a.gen);
  }

  lemma WriteKeepsTables(db: Db, g: GenId, w: Write, revoked: set<Claim>)
    requires TablesInv(db) && w in WritesFor(g, revoked) && revoked !! ClaimsOf(g.content)
    ensures TablesInv(DoWrite(db, g, w)) && Written(DoWrite(db, g, w), g, w)
    ensures Grows(db, DoWrite(db, g, w))
  {
  }

  lemma WriteKeepsDb(db: Db, g: GenId, w: Write, revoked: set<Claim>)
    requires DbInv(db) && w in WritesFor(g, revoked) && revoked !! ClaimsOf(g.content)
    ensures DbInv(DoWrite(db, g, w)) && Written(DoWrite(db, g, w), g, w)
    ensures Grows(db, DoWrite(db, g, w))
  {
    var db' := DoWrite(db, g, w);
    WriteKeepsTables(db, g, w, revoked);
    TablesUnchanged(db, db');
    assert db'.pointer == db.pointer && db'.rows == db.rows && db'.outbox == db.outbox;
    assert forall h :: OnChain(db', h) <==> OnChain(db, h);
  }

  lemma WriteIsQuiet(db: Db, g: GenId, w: Write)
    ensures DoWrite(db, g, w).pointer == db.pointer
  {
  }

  lemma PostKeepsInv(s: State, p: nat, w: Write)
    requires Inv(s) && At(s, p).Posting? && w in At(s, p).pending
    ensures Inv(Apply(s, Post(p, w)))
  {
    hide DbInv, HistoryInv, Grows, OnChain, WritesFor, DoWrite;
    MeInv(s, p);
    var me := At(s, p);
    var s' := Apply(s, Post(p, w));
    WriteKeepsDb(s.db, me.gen, w, me.revoked);
    PublisherStays(s.db, s'.db, me);
    WriteIsQuiet(s.db, me.gen, w);
    HistorySame(s, s');
    StepKeepsInv(s, s', p, me.(pending := me.pending - {w}));
  }

  /** The steps of building read the database and do not write it. */
  lemma BuildingKeepsInv(s: State, step: Step)
    requires Inv(s) && (step.Compose? || step.FindAnchor? || step.MakeAnchor? || step.FindRelease? || step.MakeRelease?)
    ensures Inv(Apply(s, step)) && Apply(s, step).db == s.db
  {
    var s', p := Apply(s, step), step.p;
    MeInv(s, p);
    HistorySame(s, s');
    GrowsHere(s.db);
    BuildingKeepsPublisher(s, step);
    hide DbInv, HistoryInv, Grows, PublisherInv;
    if s' != s {
      StepKeepsInv(s, s', p, At(s', p));
    }
  }

  lemma BuildingKeepsPublisher(s: State, step: Step)
    requires step.Compose? || step.FindAnchor? || step.MakeAnchor? || step.FindRelease? || step.MakeRelease?
    requires PublisherInv(s.db, At(s, step.p))
    ensures var s' := Apply(s, step);
            && s'.db == s.db && s'.history == s.history && PublisherInv(s.db, At(s', step.p))
            && (s' == s || s'.publishers == s.publishers[step.p := At(s', step.p)])
  {
    hide Survivors, WritesFor, Chain;
  }

  lemma ReadyKeepsRows(db: Db, g: GenId)
    requires RowsInv(db) && PointerInv(db)
    ensures RowsInv(SetReady(db, g)) && PointerInv(SetReady(db, g)) && Grows(db, SetReady(db, g))
  {
    hide Chain;
  }

  lemma ReadyKeepsDb(db: Db, g: GenId)
    requires DbInv(db)
    ensures DbInv(SetReady(db, g)) && Grows(db, SetReady(db, g))
  {
    ReadyKeepsRows(db, g);
    TablesUnchanged(db, SetReady(db, g));
    hide RowsInv, PointerInv, SearchInv, Grows, Chain;
  }

  lemma ReadyKeepsInv(s: State, p: nat)
    requires Inv(s) && At(s, p).Inserted?
    ensures Inv(Apply(s, Ready(p)))
  {
    MeInv(s, p);
    ReadyKeepsDb(s.db, At(s, p).prepared.gen);
    HistorySame(s, Apply(s, Ready(p)));
    PublisherStays(s.db, Apply(s, Ready(p)).db, At(s, p));
    hide DbInv, HistoryInv, Grows, PublisherInv;
    StepKeepsInv(s, Apply(s, Ready(p)), p, At(s, p));
  }

  lemma MarkModelKeepsInv(s: State, p: nat, model: ReadModel)
    requires Inv(s) && At(s, p).Inserted?
    ensures Inv(Apply(s, MarkModel(p, model)))
  {
    MeInv(s, p);
    var s' := Apply(s, MarkModel(p, model));
    TablesUnchanged(s.db, s'.db);
    StepKeepsInv(s, s', p, At(s, p));
  }

  lemma RepostKeepsInv(s: State, p: nat)
    requires Inv(s) && At(s, p).Inserted? && s.db.pointer == Some(At(s, p).prepared.gen)
    ensures Inv(Apply(s, Repost(p)))
  {
    MeInv(s, p);
    var prepared := At(s, p).prepared;
    ChainOfChild(prepared.gen);
    PostingStarts(s.db, prepared);
    StepKeepsInv(s, Apply(s, Repost(p)), p, Posting(prepared.gen, prepared.work.revoked,
                                                    WritesFor(prepared.gen, prepared.work.revoked)));
  }

  lemma RepairKeepsInv(s: State, p: nat)
    requires Inv(s) && At(s, p).Idle? && s.db.pointer.Some?
    ensures Inv(Apply(s, Repair(p)))
  {
    var g := s.db.pointer.value;
    ChainOfChild(g);
    StepKeepsInv(s, Apply(s, Repair(p)), p, Posting(g, {}, WritesFor(g, {})));
  }

  lemma PointKeepsInv(s: State, p: nat)
    requires Inv(s) && At(s, p).Posting? && At(s, p).pending == {}
    ensures Inv(Apply(s, Point(p)))
  {
    MeInv(s, p);
    var me := At(s, p);
    var s' := Apply(s, Point(p));
    forall w | w in WritesFor(me.gen, {})
      ensures Written(s.db, me.gen, w)
    {
      assert w in WritesFor(me.gen, me.revoked);
    }
    PointKeepsDb(s.db, me.gen);
    HistorySame(s, s');
    hide DbInv, HistoryInv, Grows, Written, WritesFor;
    StepKeepsInv(s, s', p, Idle);
  }

  lemma PointKeepsDb(db: Db, g: GenId)
    requires DbInv(db) && OnChain(db, g) && Materialized(db, g)
    ensures var db' := db.(searchPointer := Some(g)); DbInv(db') && Grows(db, db')
  {
    var db' := db.(searchPointer := Some(g));
    forall w | w in WritesFor(g, {})
      ensures Written(db', g, w)
    {
      assert Written(db, g, w);
    }
    hide Chain, WritesFor;
  }

  lemma ApplyKeepsInv(s: State, step: Step)
    requires Inv(s)
    ensures Inv(Apply(s, step))
  {
    var p := step.p;
    var me := At(s, p);
    MeInv(s, p);
    match step
    case Begin(_, work) => if me.Idle? { StepKeepsInv(s, Apply(s, step), p, Begun(work, s.db.pointer)); }
    case Compose(_) => BuildingKeepsInv(s, step);
    case FindAnchor(_) => BuildingKeepsInv(s, step);
    case MakeAnchor(_) => BuildingKeepsInv(s, step);
    case FindRelease(_) => BuildingKeepsInv(s, step);
    case MakeRelease(_) => BuildingKeepsInv(s, step);
    case Number(_, n) =>
      if me.Built? && IsNextSeq(s.db.rows, n) { StepKeepsInv(s, Apply(s, step), p, Numbered(me.prepared, n)); }
    case Insert(_) => if me.Numbered? { InsertKeepsInv(s, p); }
    case MarkModel(_, model) => if me.Inserted? { MarkModelKeepsInv(s, p, model); }
    case Ready(_) => if me.Inserted? { ReadyKeepsInv(s, p); }
    case Activating(_) => if me.Inserted? { ActivateKeepsInv(s, p); }
    case Repost(_) => if me.Inserted? && s.db.pointer == Some(me.prepared.gen) { RepostKeepsInv(s, p); }
    case Post(_, w) => if me.Posting? && w in me.pending { PostKeepsInv(s, p, w); }
    case Point(_) => if me.Posting? && me.pending == {} { PointKeepsInv(s, p); }
    case Repair(_) => if me.Idle? && s.db.pointer.Some? { RepairKeepsInv(s, p); }
    case Crash(_) => StepKeepsInv(s, Apply(s, step), p, Idle);
  }

  lemma {:induction false} RunKeepsInv(s: State, steps: seq<Step>)
    requires Inv(s)
    ensures Inv(Run(s, steps))
    decreases |steps|
  {
    if steps != [] {
      ApplyKeepsInv(s, steps[0]);
      RunKeepsInv(Apply(s, steps[0]), steps[1..]);
    }
  }

  lemma ReachableInv(steps: seq<Step>)
    ensures Inv(Run(INITIAL, steps))
  {
    RunKeepsInv(INITIAL, steps);
  }

  // ------------------------------------------------------------ what never shrinks

  lemma GrowsTwice(a: Db, b: Db, c: Db)
    requires Grows(a, b) && Grows(b, c)
    ensures Grows(a, c)
  {
    hide OnChain;
  }

  lemma SameTablesGrow(db: Db, db': Db)
    requires db'.rows == db.rows && db'.pointer == db.pointer
    requires db'.members == db.members && db'.index == db.index && db'.resolution == db.resolution
    ensures Grows(db, db')
  {
    hide Chain;
  }

  lemma ActivatingGrows(s: State, p: nat)
    requires Inv(s) && At(s, p).Inserted?
    ensures Grows(s.db, Apply(s, Activating(p)).db)
  {
    hide Activate, Grows, DbInv, HistoryInv;
    var prepared := At(s, p).prepared;
    MeInv(s, p);
    if Activate(s.db, prepared.gen, prepared.parent, prepared.release).Ok? {
      ActivatedFrom(s.db, prepared.gen, prepared.parent, prepared.release);
      ActivateGrows(s.db, prepared.gen, prepared.release);
    } else {
      GrowsHere(s.db);
    }
  }

  lemma ApplyGrows(s: State, step: Step)
    requires Inv(s)
    ensures Grows(s.db, Apply(s, step).db)
  {
    hide Grows, ComposeStep, ActivateStep, WritesFor, DbInv, HistoryInv;
    var me := At(s, step.p);
    MeInv(s, step.p);
    if step.Insert? && me.Numbered? {
      RegisterKeepsDb(s.db, me.prepared.gen, me.prepared.release, me.seq_);
    } else if step.Ready? && me.Inserted? {
      ReadyKeepsDb(s.db, me.prepared.gen);
    } else if step.Activating? && me.Inserted? {
      ActivatingGrows(s, step.p);
    } else if step.Post? && me.Posting? && step.write in me.pending {
      WriteKeepsDb(s.db, me.gen, step.write, me.revoked);
    } else {
      if step.Compose? {
        BuildingKeepsInv(s, step);
      }
      SameTablesGrow(s.db, Apply(s, step).db);
    }
  }

  lemma {:induction false} RunGrows(s: State, steps: seq<Step>)
    requires Inv(s)
    ensures Grows(s.db, Run(s, steps).db)
    decreases |steps|
  {
    if steps == [] {
      GrowsHere(s.db);
    } else {
      hide Grows, Inv;
      ApplyKeepsInv(s, steps[0]);
      ApplyGrows(s, steps[0]);
      RunGrows(Apply(s, steps[0]), steps[1..]);
      GrowsTwice(s.db, Apply(s, steps[0]).db, Run(s, steps).db);
    }
  }

  lemma {:induction false} RunBoth(s: State, first: seq<Step>, then_: seq<Step>)
    ensures Run(s, first + then_) == Run(Run(s, first), then_)
    decreases |first|
  {
    if first == [] {
      assert first + then_ == then_;
    } else {
      assert (first + then_)[1..] == first[1..] + then_;
      RunBoth(Apply(s, first[0]), first[1..], then_);
    }
  }

  /** Along one run the tables only grow. */
  lemma LaterGrows(steps: seq<Step>, i: nat, j: nat)
    requires i <= j <= |steps|
    ensures Grows(Run(INITIAL, steps[..i]).db, Run(INITIAL, steps[..j]).db)
  {
    hide Grows, Run;
    assert steps[..j] == steps[..i] + steps[i..j];
    ReachableInv(steps[..i]);
    RunBoth(INITIAL, steps[..i], steps[i..j]);
    RunGrows(Run(INITIAL, steps[..i]), steps[i..j]);
  }

  lemma WrittenStays(db: Db, db': Db, g: GenId)
    requires Grows(db, db') && Materialized(db, g)
    ensures Materialized(db', g)
  {
    hide WritesFor, OnChain;
    forall w | w in WritesFor(g, {})
      ensures Written(db', g, w)
    {
      assert Written(db, g, w);
    }
  }
}
