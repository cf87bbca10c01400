/**
 Search over an index that may lag: every hit is checked against the resolution rows of
 the generation that is current when the query runs.
 */
module Search {
  import opened Options
  import opened Publication
  import opened PublicationSafety
  import opened PublicationTheorems

  datatype Response = Response(
    hits: set<Claim>,
    indexed: Option<GenId>,
    current: Option<GenId>,
    stale: bool,
    disabled: bool)

  function SeqOf(db: Db, g: GenId): int {
    if g in db.rows then db.rows[g].seq_ else -1
  }

  /** `matches` stands for the LIKE test of the query's term. */
  function Query(db: Db, matches: Claim -> bool, maxLag: int): Response {
    if db.searchPointer.None? || db.pointer.None?
    then Response({}, db.searchPointer, db.pointer, false, false)
    else
      var s, w := db.searchPointer.value, db.pointer.value;
      if SeqOf(db, w) - SeqOf(db, s) > maxLag
      then Response({}, Some(s), Some(w), true, true)
      else
        var hits := set r | r in db.index && r.0 == s && matches(r.1) &&
                            (w, r.1) in db.resolution && db.resolution[(w, r.1)] == Accepted :: r.1;
        Response(hits, Some(s), Some(w), s != w, false)
  }

  /** A hit is an accepted claim of the current generation, however old the index is. */
  lemma HitsAreAccepted(steps: seq<Step>, matches: Claim -> bool, maxLag: int, c: Claim)
    requires c in Query(Run(INITIAL, steps).db, matches, maxLag).hits
    ensures c in ClaimsOf(ContentOf(Run(INITIAL, steps).db.pointer)) && matches(c)
  {
    ReachableInv(steps);
  }

  /** A generation on the chain is as many activations behind as its number allows. */
  lemma LagOnChain(db: Db, s: GenId) returns (i: nat)
    requires DbInv(db) && OnChain(db, s)
    ensures db.pointer.Some? && i < |db.outbox| && db.outbox[i].gen == s
    ensures s in db.rows && db.pointer.value in db.rows
    ensures |db.outbox| - 1 - i <= SeqOf(db, db.pointer.value) - SeqOf(db, s)
  {
    hide TablesInv, SearchInv;
    var chain := Chain(db.pointer);
    i :| 0 <= i < |chain| && chain[i] == s;
    var last := |chain| - 1;
    ChainLinks(db.pointer, last);
    ChainIsRegistered(db, db.pointer, chain[i]);
    if i < last {
      ChainSeqGrows(db, db.pointer, i, last);
    }
    assert db.outbox[i].gen == chain[i];
  }

  /** When results are not withheld, the index is at most `maxLag` activations behind. */
  lemma LagIsBounded(steps: seq<Step>, matches: Claim -> bool, maxLag: int)
    requires var db := Run(INITIAL, steps).db;
             db.searchPointer.Some? && !Query(db, matches, maxLag).disabled
    ensures var db := Run(INITIAL, steps).db;
            exists i :: 0 <= i < |db.outbox| && db.searchPointer == Some(db.outbox[i].gen) &&
                        |db.outbox| - 1 - i <= maxLag
  {
    ReachableInv(steps);
    var db := Run(INITIAL, steps).db;
    hide Run, OnChain;
    var i := LagOnChain(db, db.searchPointer.value);
    assert db.searchPointer == Some(db.outbox[i].gen);
  }

  /** Once the rows of the current generation are written, the answer is exactly the
      matching claims that both the indexed and the current generation hold. */
  lemma AnswerIsExact(steps: seq<Step>, matches: Claim -> bool, maxLag: int)
    requires var db := Run(INITIAL, steps).db;
             db.searchPointer.Some? && db.pointer.Some? && Materialized(db, db.pointer.value) &&
             !Query(db, matches, maxLag).disabled
    ensures var db := Run(INITIAL, steps).db;
            Query(db, matches, maxLag).hits ==
            set c | c in ClaimsOf(db.searchPointer.value.content) &&
                    c in ClaimsOf(db.pointer.value.content) && matches(c)
  {
    ReachableInv(steps);
    var db := Run(INITIAL, steps).db;
    var s, w := db.searchPointer.value, db.pointer.value;
    forall c | c in ClaimsOf(s.content) && c in ClaimsOf(w.content) && matches(c)
      ensures c in Query(db, matches, maxLag).hits
    {
      assert Index(c) in WritesFor(s, {}) && Written(db, s, Index(c));
      assert Accept(c) in WritesFor(w, {}) && Written(db, w, Accept(c));
      assert (s, c) in db.index;
    }
  }

  /** With the index at the current generation nothing that matches is missing. */
  lemma FreshAnswerIsComplete(steps: seq<Step>, matches: Claim -> bool, maxLag: nat)
    requires var db := Run(INITIAL, steps).db;
             db.searchPointer.Some? && db.searchPointer == db.pointer
    ensures var db := Run(INITIAL, steps).db;
            Query(db, matches, maxLag) ==
            Response((set c | c in ClaimsOf(ContentOf(db.pointer)) && matches(c)),
                     db.pointer, db.pointer, false, false)
  {
    ReachableInv(steps);
    AnswerIsExact(steps, matches, maxLag);
  }

  // ------------------------------------------------- a query among other statements

  /** The tables after the first `n` steps. */
  ghost function DbAfter(steps: seq<Step>, n: nat): Db
    requires n <= |steps|
  {
    Run(INITIAL, steps[..n]).db
  }

  /** When a query's statements run: the search pointer, then the pointer, then the sequence
      numbers and the index, and one resolution row for each row that was found. */
  datatype Timing = Timing(search: nat, current: nat, index: nat, resolved: map<Claim, nat>)

  ghost predicate InTime(t: Timing, n: nat) {
    && t.search <= t.current <= t.index <= n
    && forall c :: c in t.resolved ==> t.index <= t.resolved[c] <= n
  }

  /** The claims the index has for `s` that match, each looked up in its own time. */
  ghost function SlowHits(steps: seq<Step>, t: Timing, s: GenId, w: GenId, matches: Claim -> bool): set<Claim>
    requires InTime(t, |steps|)
  {
    set r | r in DbAfter(steps, t.index).index && r.0 == s && matches(r.1) && r.1 in t.resolved &&
            (w, r.1) in DbAfter(steps, t.resolved[r.1]).resolution &&
            DbAfter(steps, t.resolved[r.1]).resolution[(w, r.1)] == Accepted :: r.1
  }

  /** The answer of a query whose statements run while publishers go on. */
  ghost function SlowQuery(steps: seq<Step>, t: Timing, matches: Claim -> bool, maxLag: int): Response
    requires InTime(t, |steps|)
  {
    var searchPointer, pointer := DbAfter(steps, t.search).searchPointer, DbAfter(steps, t.current).pointer;
    if searchPointer.None? || pointer.None? then Response({}, searchPointer, pointer, false, false)
    else
      var s, w := searchPointer.value, pointer.value;
      var db := DbAfter(steps, t.index);
      if SeqOf(db, w) - SeqOf(db, s) > maxLag then Response({}, Some(s), Some(w), true, true)
      else Response(SlowHits(steps, t, s, w, matches), Some(s), Some(w), s != w, false)
  }

  /** Every row the index has for the query is looked up. */
  ghost predicate LooksUpAll(steps: seq<Step>, t: Timing, matches: Claim -> bool)
    requires InTime(t, |steps|)
  {
    forall r :: r in DbAfter(steps, t.index).index && Some(r.0) == DbAfter(steps, t.search).searchPointer &&
                matches(r.1) ==>
      r.1 in t.resolved
  }

  /** A hit is a claim that matches, is accepted in the generation the answer calls current and
      stands in the one it calls indexed, whatever was published between the statements. */
  lemma SlowHitsAreAccepted(steps: seq<Step>, t: Timing, matches: Claim -> bool, maxLag: int, c: Claim)
    requires InTime(t, |steps|) && c in SlowQuery(steps, t, matches, maxLag).hits
    ensures var answer := SlowQuery(steps, t, matches, maxLag);
            c in ClaimsOf(ContentOf(answer.current)) && c in ClaimsOf(ContentOf(answer.indexed)) && matches(c)
  {
    hide Run;
    ReachableInv(steps[..t.index]);
    ReachableInv(steps[..t.resolved[c]]);
    hide RowsInv, PointerInv, OutboxInv, SearchInv, HistoryInv;
  }

  /** The indexed generation of an answer is on the chain of the current one, and its index is
      complete. */
  lemma SlowPointers(steps: seq<Step>, t: Timing)
    requires InTime(t, |steps|) && DbAfter(steps, t.search).searchPointer.Some?
    ensures var s := DbAfter(steps, t.search).searchPointer.value;
            OnChain(DbAfter(steps, t.current), s) && Materialized(DbAfter(steps, t.index), s)
  {
    hide Run, Materialized, OnChain, TablesInv, PointerInv, OutboxInv, HistoryInv;
    var s := DbAfter(steps, t.search).searchPointer.value;
    ReachableInv(steps[..t.search]);
    LaterGrows(steps, t.search, t.current);
    LaterGrows(steps, t.search, t.index);
    WrittenStays(DbAfter(steps, t.search), DbAfter(steps, t.index), s);
  }

  /** When the rows of the current generation were written before the index was read, the answer
      is exactly the matching claims of both generations, as in a quiet database. */
  lemma SlowAnswerIsExact(steps: seq<Step>, t: Timing, matches: Claim -> bool, maxLag: int)
    requires InTime(t, |steps|) && LooksUpAll(steps, t, matches)
    requires var answer := SlowQuery(steps, t, matches, maxLag);
             !answer.disabled && answer.indexed.Some? && answer.current.Some? &&
             Materialized(DbAfter(steps, t.index), answer.current.value)
    ensures var answer := SlowQuery(steps, t, matches, maxLag);
            answer.hits ==
            set c | c in ClaimsOf(answer.indexed.value.content) && c in ClaimsOf(answer.current.value.content) &&
                    matches(c)
  {
    var answer := SlowQuery(steps, t, matches, maxLag);
    var s, w := answer.indexed.value, answer.current.value;
    forall c | c in answer.hits
      ensures c in ClaimsOf(w.content) && c in ClaimsOf(s.content) && matches(c)
    {
      SlowHitsAreAccepted(steps, t, matches, maxLag, c);
    }
    SlowPointers(steps, t);
    forall c | c in ClaimsOf(s.content) && c in ClaimsOf(w.content) && matches(c)
      ensures c in answer.hits
    {
      FoundWhenWritten(steps, t, s, w, matches, c);
    }
    hide ClaimsOf, Materialized, DbAfter, LooksUpAll;
  }

  lemma FoundWhenWritten(steps: seq<Step>, t: Timing, s: GenId, w: GenId, matches: Claim -> bool, c: Claim)
    requires InTime(t, |steps|) && LooksUpAll(steps, t, matches) && DbAfter(steps, t.search).searchPointer == Some(s)
    requires Materialized(DbAfter(steps, t.index), s) && Materialized(DbAfter(steps, t.index), w)
    requires c in ClaimsOf(s.content) && c in ClaimsOf(w.content) && matches(c)
    ensures c in SlowHits(steps, t, s, w, matches)
  {
    hide Run;
    var db := DbAfter(steps, t.index);
    assert Index(c) in WritesFor(s, {}) && Written(db, s, Index(c));
    assert Accept(c) in WritesFor(w, {}) && Written(db, w, Accept(c));
    hide WritesFor, ClaimsOf;
    assert (s, c) in db.index;
    LaterGrows(steps, t.index, t.resolved[c]);
    hide OnChain;
  }

  /** When the answer is not withheld, the indexed generation is at most `maxLag` activations
      behind the one the answer calls current. */
  lemma SlowLagIsBounded(steps: seq<Step>, t: Timing, matches: Claim -> bool, maxLag: int)
    requires InTime(t, |steps|)
    requires var answer := SlowQuery(steps, t, matches, maxLag);
             !answer.disabled && answer.indexed.Some? && answer.current.Some?
    ensures var answer, db := SlowQuery(steps, t, matches, maxLag), DbAfter(steps, t.current);
            exists i :: 0 <= i < |db.outbox| && answer.indexed == Some(db.outbox[i].gen) &&
                        |db.outbox| - 1 - i <= maxLag
  {
    var now, later := DbAfter(steps, t.current), DbAfter(steps, t.index);
    var s := SlowQuery(steps, t, matches, maxLag).indexed.value;
    SlowPointers(steps, t);
    ReachableInv(steps[..t.current]);
    LaterGrows(steps, t.current, t.index);
    assert DbInv(now) && Grows(now, later);
    hide Run, Materialized, OnChain, DbInv, SlowHits, Grows;
    var i := LagOnChain(now, s);
    SameNumber(now, later, s);
    SameNumber(now, later, now.pointer.value);
  }

  lemma SameNumber(db: Db, db': Db, g: GenId)
    requires Grows(db, db') && g in db.rows
    ensures SeqOf(db', g) == SeqOf(db, g)
  {
    hide OnChain;
  }
}
