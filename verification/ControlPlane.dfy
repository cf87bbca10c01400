/**
 The control plane as the object it is: its tables are fields, and each method is one
 transaction.  Every method is tied to the database step of the protocol it performs.
 */
module ControlPlane {
  import opened Options
  import P = Publication
  import S = Search

  class ControlPlane {
    var rows: map<P.GenId, P.Row>
    var ready: set<(P.GenId, P.ReadModel)>
    var pointer: Option<P.GenId>
    var release: Option<P.Release>
    var searchPointer: Option<P.GenId>
    var outbox: seq<P.Event>
    var members: set<(P.GenId, P.AssertionId)>
    var resolution: map<(P.GenId, P.Claim), P.Resolution>
    var index: set<(P.GenId, P.Claim)>

    function View(): P.Db
      reads this
    {
      P.Db(rows, ready, pointer, release, searchPointer, outbox, members, resolution, index)
    }

    constructor ()
      ensures View() == P.EMPTY_DB
    {
      rows, ready, pointer, release, searchPointer := map[], {}, None, None, None;
      outbox, members, resolution, index := [], {}, map[], {};
    }

    /** The greatest sequence number in use, plus one. */
    method NextSeq() returns (n: nat)
      ensures P.IsNextSeq(rows, n)
    {
      n := 1;
      var left := rows.Keys;
      while left != {}
        invariant left <= rows.Keys
        invariant forall g :: g in rows && g !in left ==> rows[g].seq_ < n
        invariant n == 1 || exists g :: g in rows && rows[g].seq_ + 1 == n
        decreases left
      {
        var g :| g in left;
        if rows[g].seq_ >= n {
          n := rows[g].seq_ + 1;
        }
        left := left - {g};
      }
    }

    method RegisterGeneration(g: P.GenId, release_: P.Release) returns (n: nat)
      modifies this`rows
      ensures P.IsNextSeq(old(rows), n)
      ensures View() == P.Register(old(View()), g, release_, n)
    {
      n := NextSeq();
      if g !in rows {
        rows := rows[g := P.Row(g.parent, release_, P.Validated, n)];
      }
    }

    method MarkReadModel(g: P.GenId, model: P.ReadModel)
      modifies this`ready
      ensures View() == old(View()).(ready := old(ready) + {(g, model)})
    {
      ready := ready + {(g, model)};
    }

    method SetReadModelsReady(g: P.GenId)
      modifies this`rows
      ensures View() == P.SetReady(old(View()), g)
    {
      if g in rows && rows[g].phase == P.Validated {
        rows := rows[g := rows[g].(phase := P.ReadModelsReady)];
      }
    }

    /** The end of preparing: the row, both read models, and the move to ready. */
    method RegisterPrepared(g: P.GenId, release_: P.Release) returns (n: nat)
      modifies this`rows, this`ready
      ensures P.IsNextSeq(old(rows), n)
      ensures View() == WithPrepared(old(View()), g, release_, n)
    {
      n := RegisterGeneration(g, release_);
      MarkReadModel(g, P.WikiFiles);
      MarkReadModel(g, P.CitationIndex);
      SetReadModelsReady(g);
    }

    /** The activation transaction: the checks in the program's order, then the updates.
        A refused activation changes nothing. */
    method Activate(g: P.GenId, expected: Option<P.GenId>, release_: P.Release)
      returns (refused: Option<P.ActivationError>)
      modifies this`rows, this`pointer, this`release, this`outbox
      ensures match P.Activate(old(View()), g, expected, release_)
              case Ok(db) => refused == None && View() == db
              case Err(e) => refused == Some(e) && View() == old(View())
    {
      if g !in rows { return Some(P.NotRegistered); }
      var current := pointer;
      if current != expected { return Some(P.CasConflict); }
      if rows[g].phase != P.ReadModelsReady { return Some(P.WrongState); }
      if rows[g].release != release_ { return Some(P.WrongRelease); }
      if (g, P.WikiFiles) !in ready || (g, P.CitationIndex) !in ready { return Some(P.ModelNotReady); }
      rows := rows[g := rows[g].(phase := P.Published)];
      if current.Some? && current.value in rows {
        rows := rows[current.value := rows[current.value].(phase := P.Superseded)];
      }
      pointer, release := Some(g), Some(release_);
      outbox := outbox + [P.Event(g, false)];
      refused := None;
    }

    method AddMember(g: P.GenId, a: P.AssertionId)
      modifies this`members
      ensures View() == P.DoWrite(old(View()), g, P.Member(a))
    {
      members := members + {(g, a)};
    }

    method RecordResolution(g: P.GenId, c: P.Claim, state: P.Resolution)
      modifies this`resolution
      ensures View() == P.DoWrite(old(View()), g, if state == P.Accepted then P.Accept(c) else P.Retract(c))
    {
      resolution := resolution[(g, c) := state];
    }

    method AddIndexRow(g: P.GenId, c: P.Claim)
      modifies this`index
      ensures View() == P.DoWrite(old(View()), g, P.Index(c))
    {
      index := index + {(g, c)};
    }

    /** What follows an activation, in the program's order: members, accepted claims,
        retracted claims, index rows and last the search pointer. */
    method PostPublish(g: P.GenId, revoked: set<P.Claim>)
      modifies this`members, this`resolution, this`index, this`searchPointer
      ensures View() == PostAll(old(View()), g, revoked)
    {
      WriteMembers(g);
      var claims := P.ClaimsOf(g.content);
      WriteResolutions(g, claims, P.Accepted);
      WriteResolutions(g, revoked, P.Retracted);
      WriteIndex(g, claims);
      searchPointer := Some(g);
    }

    method WriteMembers(g: P.GenId)
      modifies this`members
      ensures members == old(members) + MemberRows(g, g.content.Keys)
    {
      var left := g.content.Keys;
      while left != {}
        invariant left <= g.content.Keys
        invariant members == old(members) + MemberRows(g, g.content.Keys - left)
        decreases left
      {
        var a :| a in left;
        AddMember(g, a);
        left := left - {a};
      }
    }

    method WriteResolutions(g: P.GenId, claims: set<P.Claim>, state: P.Resolution)
      modifies this`resolution
      ensures resolution == old(resolution) + ResolutionRows(g, claims, state)
    {
      var left := claims;
      while left != {}
        invariant left <= claims
        invariant resolution == old(resolution) + ResolutionRows(g, claims - left, state)
        decreases left
      {
        var c :| c in left;
        ResolveOneMore(old(resolution), g, claims - left, state, c);
        assert claims - (left - {c}) == claims - left + {c};
        RecordResolution(g, c, state);
        left := left - {c};
      }
    }

    method WriteIndex(g: P.GenId, claims: set<P.Claim>)
      modifies this`index
      ensures index == old(index) + IndexRows(g, claims)
    {
      var left := claims;
      while left != {}
        invariant left <= claims
        invariant index == old(index) + IndexRows(g, claims - left)
        decreases left
      {
        var c :| c in left;
        AddIndexRow(g, c);
        left := left - {c};
      }
    }

    /** The query's loop over the index rows of the indexed generation. */
    method Query(matches: P.Claim -> bool, maxLag: int) returns (response: S.Response)
      ensures response == S.Query(View(), matches, maxLag)
    {
      var s, w := searchPointer, pointer;
      if s.None? || w.None? {
        return S.Response({}, s, w, false, false);
      }
      var newer := S.SeqOf(View(), w.value);
      var older := S.SeqOf(View(), s.value);
      if newer - older > maxLag {
        return S.Response({}, s, w, true, true);
      }
      var hits: set<P.Claim> := {};
      var left := set r | r in index && r.0 == s.value && matches(r.1);
      ghost var all := left;
      while left != {}
        invariant left <= all
        invariant hits == set r | r in all - left && (w.value, r.1) in resolution &&
                                  resolution[(w.value, r.1)] == P.Accepted :: r.1
        decreases left
      {
        var r :| r in left;
        if (w.value, r.1) in resolution && resolution[(w.value, r.1)] == P.Accepted {
          hits := hits + {r.1};
        }
        left := left - {r};
      }
      response := S.Response(hits, s, w, s != w, false);
    }
  }

  /** The tables after a generation has been registered and made ready. */
  function WithPrepared(db: P.Db, g: P.GenId, release: P.Release, n: nat): P.Db {
    var registered := P.Register(db, g, release, n);
    P.SetReady(registered.(ready := registered.ready + {(g, P.WikiFiles)} + {(g, P.CitationIndex)}), g)
  }

  /** The protocol's four steps of a publisher that has its number, when none comes between. */
  lemma PreparedBySteps(s: P.State, p: nat)
    requires P.At(s, p).Numbered?
    ensures var me := P.At(s, p);
            var inserted := P.Apply(s, P.Insert(p));
            var marked := P.Apply(P.Apply(inserted, P.MarkModel(p, P.WikiFiles)), P.MarkModel(p, P.CitationIndex));
            P.Apply(marked, P.Ready(p)).db == WithPrepared(s.db, me.prepared.gen, me.prepared.release, me.seq_)
  {
    var me := P.At(s, p);
    hide P.Register, P.SetReady, P.ComposeStep, P.ActivateStep, P.WritesFor;
    var inserted := P.Apply(s, P.Insert(p));
    assert P.At(inserted, p) == P.Inserted(me.prepared);
  }

  function MemberRows(g: P.GenId, assertions: set<P.AssertionId>): set<(P.GenId, P.AssertionId)> {
    set a | a in assertions :: (g, a)
  }

  function ResolutionRows(g: P.GenId, claims: set<P.Claim>, state: P.Resolution)
    : map<(P.GenId, P.Claim), P.Resolution>
  {
    map c | c in claims :: (g, c) := state
  }

  function IndexRows(g: P.GenId, claims: set<P.Claim>): set<(P.GenId, P.Claim)> {
    set c | c in claims :: (g, c)
  }

  /** The tables after everything that follows the activation of `g`. */
  function PostAll(db: P.Db, g: P.GenId, revoked: set<P.Claim>): P.Db {
    var claims := P.ClaimsOf(g.content);
    db.(members := db.members + MemberRows(g, g.content.Keys),
        resolution := db.resolution + ResolutionRows(g, claims, P.Accepted) + ResolutionRows(g, revoked, P.Retracted),
        index := db.index + IndexRows(g, claims),
        searchPointer := Some(g))
  }

  /** A publisher's rows written one statement at a time. */
  ghost function DoAll(db: P.Db, g: P.GenId, writes: seq<P.Write>): P.Db
    decreases |writes|
  {
    if writes == [] then db
    else P.DoWrite(DoAll(db, g, writes[..|writes| - 1]), g, writes[|writes| - 1])
  }

  function Assertions(writes: seq<P.Write>): set<P.AssertionId> {
    set w | w in writes && w.Member? :: w.assertion
  }

  function AcceptedIn(writes: seq<P.Write>): set<P.Claim> {
    set w | w in writes && w.Accept? :: w.claim
  }

  function RetractedIn(writes: seq<P.Write>): set<P.Claim> {
    set w | w in writes && w.Retract? :: w.claim
  }

  function IndexedIn(writes: seq<P.Write>): set<P.Claim> {
    set w | w in writes && w.Index? :: w.claim
  }

  ghost function DoneAtOnce(db: P.Db, g: P.GenId, writes: seq<P.Write>): P.Db {
    db.(members := db.members + MemberRows(g, Assertions(writes)),
        resolution := db.resolution + ResolutionRows(g, AcceptedIn(writes), P.Accepted)
                                    + ResolutionRows(g, RetractedIn(writes), P.Retracted),
        index := db.index + IndexRows(g, IndexedIn(writes)))
  }

  lemma ResolveOneMore(rows: map<(P.GenId, P.Claim), P.Resolution>, g: P.GenId, done: set<P.Claim>,
                       state: P.Resolution, c: P.Claim)
    ensures rows + ResolutionRows(g, done + {c}, state) == (rows + ResolutionRows(g, done, state))[(g, c) := state]
  {
  }

  lemma AcceptOneMore(rows: map<(P.GenId, P.Claim), P.Resolution>, g: P.GenId, accepted: set<P.Claim>,
                      retracted: set<P.Claim>, c: P.Claim)
    requires c !in retracted
    ensures rows + ResolutionRows(g, accepted + {c}, P.Accepted) + ResolutionRows(g, retracted, P.Retracted) ==
            (rows + ResolutionRows(g, accepted, P.Accepted) +
             ResolutionRows(g, retracted, P.Retracted))[(g, c) := P.Accepted]
  {
  }

  lemma RetractOneMore(rows: map<(P.GenId, P.Claim), P.Resolution>, g: P.GenId, retracted: set<P.Claim>, c: P.Claim)
    ensures rows + ResolutionRows(g, retracted + {c}, P.Retracted) ==
            (rows + ResolutionRows(g, retracted, P.Retracted))[(g, c) := P.Retracted]
  {
  }

  lemma OneMore(db: P.Db, g: P.GenId, init: seq<P.Write>, w: P.Write)
    requires AcceptedIn(init + [w]) !! RetractedIn(init)
    ensures DoneAtOnce(db, g, init + [w]) == P.DoWrite(DoneAtOnce(db, g, init), g, w)
  {
    var all := init + [w];
    assert Assertions(all) == if w.Member? then Assertions(init) + {w.assertion} else Assertions(init);
    assert AcceptedIn(all) == if w.Accept? then AcceptedIn(init) + {w.claim} else AcceptedIn(init);
    assert RetractedIn(all) == if w.Retract? then RetractedIn(init) + {w.claim} else RetractedIn(init);
    assert IndexedIn(all) == if w.Index? then IndexedIn(init) + {w.claim} else IndexedIn(init);
    match w
    case Member(a) =>
      assert MemberRows(g, Assertions(init) + {a}) == MemberRows(g, Assertions(init)) + {(g, a)};
    case Accept(c) =>
      assert c in AcceptedIn(all);
      AcceptOneMore(db.resolution, g, AcceptedIn(init), RetractedIn(init), c);
    case Retract(c) =>
      RetractOneMore(db.resolution + ResolutionRows(g, AcceptedIn(init), P.Accepted), g, RetractedIn(init), c);
    case Index(c) =>
      assert IndexRows(g, IndexedIn(init) + {c}) == IndexRows(g, IndexedIn(init)) + {(g, c)};
  }

  lemma {:induction false} DoAllAtOnce(db: P.Db, g: P.GenId, writes: seq<P.Write>)
    requires AcceptedIn(writes) !! RetractedIn(writes)
    ensures DoAll(db, g, writes) == DoneAtOnce(db, g, writes)
    decreases |writes|
  {
    if writes != [] {
      var init, last := writes[..|writes| - 1], writes[|writes| - 1];
      assert writes == init + [last];
      assert AcceptedIn(init) <= AcceptedIn(writes) && RetractedIn(init) <= RetractedIn(writes);
      DoAllAtOnce(db, g, init);
      OneMore(db, g, init, last);
    }
  }

  lemma ClaimsByKind(g: P.GenId, writes: seq<P.Write>, revoked: set<P.Claim>)
    requires forall w :: w in writes <==> w in P.WritesFor(g, revoked)
    ensures AcceptedIn(writes) == P.ClaimsOf(g.content)
    ensures IndexedIn(writes) == P.ClaimsOf(g.content)
  {
    assert forall c :: c in P.ClaimsOf(g.content) ==> P.Accept(c) in writes && P.Index(c) in writes;
    hide P.ClaimsOf;
  }

  lemma OthersByKind(g: P.GenId, writes: seq<P.Write>, revoked: set<P.Claim>)
    requires forall w :: w in writes <==> w in P.WritesFor(g, revoked)
    ensures Assertions(writes) == g.content.Keys && RetractedIn(writes) == revoked
  {
    assert forall a :: a in g.content ==> P.Member(a) in writes;
    assert forall c :: c in revoked ==> P.Retract(c) in writes;
    hide P.ClaimsOf;
  }

  /** In whatever order the statements run, the protocol's steps and the method end in the
      same tables. */
  lemma AnyOrderOfWrites(db: P.Db, g: P.GenId, writes: seq<P.Write>, revoked: set<P.Claim>)
    requires forall w :: w in writes <==> w in P.WritesFor(g, revoked)
    requires revoked !! P.ClaimsOf(g.content)
    ensures DoAll(db, g, writes).(searchPointer := Some(g)) == PostAll(db, g, revoked)
  {
    ClaimsByKind(g, writes, revoked);
    OthersByKind(g, writes, revoked);
    hide P.WritesFor, Assertions, AcceptedIn, RetractedIn, IndexedIn;
    DoAllAtOnce(db, g, writes);
  }

  /** Dictionary building of `prepare`: parent claims by assertion id, overwritten by the
      new ones, without those whose claim is revoked. */
  method CollectSurvivors(parent: seq<(P.AssertionId, P.Item)>, added: seq<(P.AssertionId, P.Item)>,
                          revoked: set<P.Claim>)
    returns (surviving: P.Content)
    ensures surviving == P.Survivors(ByAssertion(parent), ByAssertion(added), revoked)
  {
    var all: P.Content := map[];
    for i := 0 to |parent|
      invariant all == ByAssertion(parent[..i])
    {
      assert parent[..i + 1][..i] == parent[..i];
      all := all[parent[i].0 := parent[i].1];
    }
    assert parent[..|parent|] == parent;
    for i := 0 to |added|
      invariant all == ByAssertion(parent) + ByAssertion(added[..i])
    {
      assert added[..i + 1][..i] == added[..i];
      all := all[added[i].0 := added[i].1];
    }
    assert added[..|added|] == added;
    surviving := map a | a in all && all[a].claim !in revoked :: all[a];
  }

  /** Items by assertion id; of two items with one id the later one stays. */
  function ByAssertion(items: seq<(P.AssertionId, P.Item)>): P.Content {
    if items == [] then map[]
    else
      var last := items[|items| - 1];
      ByAssertion(items[..|items| - 1])[last.0 := last.1]
  }
}
