/**
 Publication as a protocol: any number of publishers prepare immutable generations and
 move one pointer by compare-and-swap.  Every step below is one database transaction, or one
 reading or writing of a Git ref; a publisher may stop for ever between any two of them.

 Identifiers are content hashes, so they are modelled by what they hash: a generation id
 is its descriptor, with its parent's id inside, and a claim id is the claim's identity.
 */
module Publication {
  import opened Options

  type AssertionId = nat

  datatype Claim = Claim(subject: string, predicate_: string, object_: string, positive: bool)

  /** An accepted assertion: its claim, and its source and evidence as one number. */
  datatype Item = Item(claim: Claim, detail: nat)

  type Content = map<AssertionId, Item>

  datatype GenId = Gen(parent: Option<GenId>, source: nat, content: Content, binding: nat)

  datatype Release = Release(gen: GenId, previous: Option<Release>)

  datatype ReadModel = WikiFiles | CitationIndex

  datatype Phase = Validated | ReadModelsReady | Published | Superseded

  datatype Row = Row(parent: Option<GenId>, release: Release, phase: Phase, seq_: nat)

  datatype Event = Event(gen: GenId, processed: bool)

  datatype Resolution = Accepted | Retracted

  /** The control-plane tables that publication, mirroring and search use. */
  datatype Db = Db(
    rows: map<GenId, Row>,
    ready: set<(GenId, ReadModel)>,
    pointer: Option<GenId>,
    release: Option<Release>,
    searchPointer: Option<GenId>,
    outbox: seq<Event>,
    members: set<(GenId, AssertionId)>,
    resolution: map<(GenId, Claim), Resolution>,
    index: set<(GenId, Claim)>)

  const EMPTY_DB := Db(map[], {}, None, None, None, [], {}, map[], {})

  // ------------------------------------------------------- the sequential meaning

  /** What one publication makes of its parent's assertions. */
  function Survivors(parent: Content, added: Content, revoked: set<Claim>): Content {
    var all := parent + added;
    map a | a in all && all[a].claim !in revoked :: all[a]
  }

  datatype Activation = Activation(gen: GenId, added: Content, revoked: set<Claim>)

  ghost function Replay(history: seq<Activation>): Content {
    if history == [] then map[]
    else
      var last := history[|history| - 1];
      Survivors(Replay(history[..|history| - 1]), last.added, last.revoked)
  }

  function ContentOf(gen: Option<GenId>): Content {
    if gen.Some? then gen.value.content else map[]
  }

  function ClaimsOf(content: Content): set<Claim> {
    set a | a in content :: content[a].claim
  }

  /** A generation's ancestors and itself, oldest first. */
  ghost function Chain(gen: Option<GenId>): seq<GenId> {
    match gen
    case None => []
    case Some(g) => Chain(g.parent) + [g]
  }

  // --------------------------------------------------------- database transactions

  /** Registration inserts a row once; an existing row is left as it is. */
  function Register(db: Db, g: GenId, release: Release, seq_: nat): Db {
    if g in db.rows then db
    else db.(rows := db.rows[g := Row(g.parent, release, Validated, seq_)])
  }

  function SetReady(db: Db, g: GenId): Db {
    if g in db.rows && db.rows[g].phase == Validated
    then db.(rows := db.rows[g := db.rows[g].(phase := ReadModelsReady)])
    else db
  }

  datatype ActivationError = NotRegistered | CasConflict | WrongState | WrongRelease | ModelNotReady

  function Activate(db: Db, g: GenId, expected: Option<GenId>, release: Release): Result<Db, ActivationError> {
    if g !in db.rows then Err(NotRegistered)
    else if db.pointer != expected then Err(CasConflict)
    else if db.rows[g].phase != ReadModelsReady then Err(WrongState)
    else if db.rows[g].release != release then Err(WrongRelease)
    else if (g, WikiFiles) !in db.ready || (g, CitationIndex) !in db.ready then Err(ModelNotReady)
    else
      var published := db.rows[g := db.rows[g].(phase := Published)];
      var rows :=
        if expected.Some? && expected.value in published
        then published[expected.value := published[expected.value].(phase := Superseded)]
        else published;
      Ok(db.(rows := rows, pointer := Some(g), release := Some(release),
             outbox := db.outbox + [Event(g, false)]))
  }

  /** The rows that follow an activation, written one statement at a time. */
  datatype Write = Member(assertion: AssertionId) | Accept(claim: Claim) | Retract(claim: Claim) | Index(claim: Claim)

  function WritesFor(g: GenId, revoked: set<Claim>): set<Write> {
    (set a | a in g.content :: Member(a)) +
    (set c | c in ClaimsOf(g.content) :: Accept(c)) +
    (set c | c in revoked :: Retract(c)) +
    (set c | c in ClaimsOf(g.content) :: Index(c))
  }

  function DoWrite(db: Db, g: GenId, w: Write): Db {
    match w
    case Member(a) => db.(members := db.members + {(g, a)})
    case Accept(c) => db.(resolution := db.resolution[(g, c) := Accepted])
    case Retract(c) => db.(resolution := db.resolution[(g, c) := Retracted])
    case Index(c) => db.(index := db.index + {(g, c)})
  }

  // --------------------------------------------------------------- publishers

  datatype Work = Work(added: Content, revoked: set<Claim>, source: nat, binding: nat)

  datatype Prepared = Prepared(parent: Option<GenId>, gen: GenId, release: Release, work: Work)

  datatype Publisher =
    | Idle
    | Begun(work: Work, parent: Option<GenId>)
    | Composed(prepared: Prepared)
    | Unanchored(prepared: Prepared)   // no ref of the generation was found
    | Anchored(prepared: Prepared)
    | Unreleased(prepared: Prepared)   // no ref of the release was found
    | Built(prepared: Prepared)
    | Numbered(prepared: Prepared, seq_: nat)
    | Inserted(prepared: Prepared)
    | Posting(gen: GenId, revoked: set<Claim>, pending: set<Write>)

  /** `anchors` are the refs that keep generations reachable; a generation's commit is
      determined by its id, so that a ref is there or not. */
  datatype State = State(
    db: Db,
    anchors: set<GenId>,
    releaseRefs: map<GenId, Release>,
    publishers: map<nat, Publisher>,
    history: seq<Activation>)

  const INITIAL := State(EMPTY_DB, {}, map[], map[], [])

  function At(s: State, p: nat): Publisher {
    if p in s.publishers then s.publishers[p] else Idle
  }

  function Move(s: State, p: nat, to: Publisher): State {
    s.(publishers := s.publishers[p := to])
  }

  /** The number `SELECT COALESCE(MAX(seq),0)+1` returns. */
  predicate IsNextSeq(rows: map<GenId, Row>, n: nat) {
    && (forall g :: g in rows ==> rows[g].seq_ < n)
    && (n == 1 || exists g :: g in rows && rows[g].seq_ + 1 == n)
  }

  datatype Step =
    | Begin(p: nat, work: Work)        // read the pointer
    | Compose(p: nat)                  // read the current release, write the objects
    | FindAnchor(p: nat)               // read the generation's ref
    | MakeAnchor(p: nat)               // create it, if it was not found
    | FindRelease(p: nat)              // read the release's ref
    | MakeRelease(p: nat)              // create it, if it was not found
    | Number(p: nat, seq_: nat)        // select the next sequence number
    | Insert(p: nat)                   // insert the generation row
    | MarkModel(p: nat, model: ReadModel)
    | Ready(p: nat)
    | Activating(p: nat)               // the activation transaction
    | Repost(p: nat)                   // the generation is already the published one
    | Post(p: nat, write: Write)       // one row after activation
    | Point(p: nat)                    // move the search pointer
    | Repair(p: nat)                   // rebuild the current generation's rows
    | Crash(p: nat)                    // also: an exception ends the attempt

  /** One step; a step that is not enabled changes nothing. */
  function Apply(s: State, step: Step): State {
    var me := At(s, step.p);
    match step
    case Begin(p, work) =>
      if me.Idle? then Move(s, p, Begun(work, s.db.pointer)) else s
    case Compose(p) =>
      if me.Begun? then ComposeStep(s, p, me.work, me.parent) else s
    case FindAnchor(p) =>
      if me.Composed?
      then Move(s, p, if me.prepared.gen in s.anchors then Anchored(me.prepared) else Unanchored(me.prepared))
      else s
    case MakeAnchor(p) =>
      if !me.Unanchored? then s
      else if me.prepared.gen in s.anchors then Move(s, p, Idle)
      else Move(s.(anchors := s.anchors + {me.prepared.gen}), p, Anchored(me.prepared))
    case FindRelease(p) =>
      if !me.Anchored? then s
      else if me.prepared.gen !in s.releaseRefs then Move(s, p, Unreleased(me.prepared))
      else Move(s, p, if s.releaseRefs[me.prepared.gen] == me.prepared.release then Built(me.prepared) else Idle)
    case MakeRelease(p) =>
      if !me.Unreleased? then s
      else if me.prepared.gen in s.releaseRefs then Move(s, p, Idle)
      else Move(s.(releaseRefs := s.releaseRefs[me.prepared.gen := me.prepared.release]), p, Built(me.prepared))
    case Number(p, n) =>
      if me.Built? && IsNextSeq(s.db.rows, n) then Move(s, p, Numbered(me.prepared, n)) else s
    case Insert(p) =>
      if me.Numbered? then
        var db := Register(s.db, me.prepared.gen, me.prepared.release, me.seq_);
        Move(s.(db := db), p, Inserted(me.prepared))
      else s
    case MarkModel(p, model) =>
      if me.Inserted? then s.(db := s.db.(ready := s.db.ready + {(me.prepared.gen, model)})) else s
    case Ready(p) =>
      if me.Inserted? then s.(db := SetReady(s.db, me.prepared.gen)) else s
    case Activating(p) =>
      if me.Inserted? then ActivateStep(s, p, me.prepared) else s
    case Repost(p) =>
      if me.Inserted? && s.db.pointer == Some(me.prepared.gen) then
        var g, revoked := me.prepared.gen, me.prepared.work.revoked;
        Move(s, p, Posting(g, revoked, WritesFor(g, revoked)))
      else s
    case Post(p, w) =>
      if me.Posting? && w in me.pending then
        Move(s.(db := DoWrite(s.db, me.gen, w)), p, me.(pending := me.pending - {w}))
      else s
    case Point(p) =>
      if me.Posting? && me.pending == {} then
        Move(s.(db := s.db.(searchPointer := Some(me.gen))), p, Idle)
      else s
    case Repair(p) =>
      if me.Idle? && s.db.pointer.Some? then
        var g := s.db.pointer.value;
        Move(s, p, Posting(g, {}, WritesFor(g, {})))
      else s
    case Crash(p) =>
      Move(s, p, Idle)
  }

  /** The candidate that the work makes of its parent; its release follows the current one. */
  function Candidate(work: Work, parent: Option<GenId>, current: Option<Release>): Prepared {
    var content := Survivors(ContentOf(parent), work.added, work.revoked);
    var g := Gen(parent, work.source, content, work.binding);
    Prepared(parent, g, Release(g, if parent.Some? then current else None), work)
  }

  /** The work leaves the set of assertions as it is. */
  predicate NothingChanges(work: Work, parent: Option<GenId>) {
    Survivors(ContentOf(parent), work.added, work.revoked).Keys == ContentOf(parent).Keys
  }

  function ComposeStep(s: State, p: nat, work: Work, parent: Option<GenId>): State {
    if NothingChanges(work, parent) then Move(s, p, Idle)
    else if parent.Some? && parent.value !in s.anchors then Move(s, p, Idle)
    else Move(s, p, Composed(Candidate(work, parent, s.db.release)))
  }

  function ActivateStep(s: State, p: nat, prepared: Prepared): State {
    var g, work := prepared.gen, prepared.work;
    match Activate(s.db, g, prepared.parent, prepared.release)
    case Err(_) => Move(s, p, Idle)
    case Ok(db) =>
      Move(s.(db := db, history := s.history + [Activation(g, work.added, work.revoked)]),
           p, Posting(g, work.revoked, WritesFor(g, work.revoked)))
  }

  ghost function Run(s: State, steps: seq<Step>): State
    decreases |steps|
  {
    if steps == [] then s else Run(Apply(s, steps[0]), steps[1..])
  }
}
