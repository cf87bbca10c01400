/**
 What a generation renders: pages, the citation index and the knowledge snapshot.

 `nfc` is the normalization that canonical encoding applies to every string; all that is
 assumed of it is that normalizing twice is normalizing once.  Hashes and assertion ids are
 numbers, which it leaves alone.  A page's path is modelled by its subject, and its lines
 by a map, since they are written in the order of the claim ids.
 */
module Snapshot {
  import opened Escaping
  import opened StableSort
  import opened Sequences

  type Normalizer = string -> string

  ghost predicate Idempotent(nfc: Normalizer) {
    forall s :: nfc(nfc(s)) == nfc(s)
  }

  datatype Identity = Identity(subject: string, predicate_: string, object_: string, positive: bool, scope: string)

  /** A claim id is the hash of the normalized identity. */
  datatype ClaimId = Hashed(identity: Identity)

  datatype Claim = Claim(
    id: ClaimId,
    identity: Identity,
    assertion: nat,
    assertionClaim: ClaimId,
    source: nat,
    evidenceIds: seq<nat>,
    evidence: nat,
    locators: string)

  function NormIdentity(nfc: Normalizer, i: Identity): Identity {
    Identity(nfc(i.subject), nfc(i.predicate_), nfc(i.object_), i.positive, nfc(i.scope))
  }

  function IdOf(nfc: Normalizer, i: Identity): ClaimId {
    Hashed(NormIdentity(nfc, i))
  }

  function Norm(nfc: Normalizer, c: Claim): Claim {
    c.(identity := NormIdentity(nfc, c.identity), locators := nfc(c.locators))
  }

  function NormAll(nfc: Normalizer, s: seq<Claim>): seq<Claim> {
    if s == [] then [] else NormAll(nfc, s[..|s| - 1]) + [Norm(nfc, s[|s| - 1])]
  }

  /** What parsing checks of a record. */
  predicate WellFormed(nfc: Normalizer, c: Claim) {
    c.id == IdOf(nfc, c.identity) && c.assertionClaim == c.id && c.evidence in c.evidenceIds
  }

  ghost predicate AllWellFormed(nfc: Normalizer, s: seq<Claim>) {
    forall c :: c in s ==> WellFormed(nfc, c)
  }

  lemma {:induction false} NormAllMembers(nfc: Normalizer, s: seq<Claim>)
    ensures |NormAll(nfc, s)| == |s|
    ensures forall i :: 0 <= i < |s| ==> NormAll(nfc, s)[i] == Norm(nfc, s[i])
  {
    if s != [] {
      NormAllMembers(nfc, s[..|s| - 1]);
    }
  }

  // ------------------------------------------------------------------- pages

  /** One line of a page; the subject of a line is the page's. */
  datatype Line = Line(subject: string, positive: bool, predicate_: string, object_: string)

  datatype Page = Page(heading: string, lines: map<ClaimId, Line>) | Raw(bytes: nat)

  function LineOf(c: Claim): Line {
    Line(Sanitize(c.identity.subject), c.identity.positive, Sanitize(c.identity.predicate_),
         Sanitize(c.identity.object_))
  }

  type Groups = map<string, map<ClaimId, Line>>

  function AddLine(groups: Groups, c: Claim): Groups {
    var subject := c.identity.subject;
    groups[subject := (if subject in groups then groups[subject] else map[])[c.id := LineOf(c)]]
  }

  /** Lines by subject and claim id; of several claims with one id the last one counts. */
  function Grouped(s: seq<Claim>): Groups {
    if s == [] then map[] else AddLine(Grouped(s[..|s| - 1]), s[|s| - 1])
  }

  function PageOf(subject: string, lines: map<ClaimId, Line>): Page {
    Page(Sanitize(subject), lines)
  }

  function Pages(groups: Groups): map<string, Page> {
    map subject | subject in groups :: PageOf(subject, groups[subject])
  }

  function Render(s: seq<Claim>): map<string, Page> {
    Pages(Grouped(s))
  }

  /** One page for every subject. */
  method WritePages(bySubject: Groups) returns (pages: map<string, Page>)
    ensures pages == Pages(bySubject)
  {
    hide PageOf;
    pages := map[];
    var left := bySubject.Keys;
    while left != {}
      invariant left <= bySubject.Keys
      invariant pages.Keys == bySubject.Keys - left
      invariant forall subject :: subject in pages ==> pages[subject] == PageOf(subject, bySubject[subject])
      decreases left
    {
      var subject :| subject in left;
      pages := pages[subject := PageOf(subject, bySubject[subject])];
      left := left - {subject};
    }
  }

  method RenderPages(accepted: seq<Claim>) returns (pages: map<string, Page>)
    ensures pages == Render(accepted)
  {
    var bySubject: Groups := map[];
    for i := 0 to |accepted|
      invariant bySubject == Grouped(accepted[..i])
    {
      SplitGrouped(accepted[..i + 1]);
      assert accepted[..i + 1][..i] == accepted[..i];
      hide AddLine, Grouped;
      bySubject := AddLine(bySubject, accepted[i]);
    }
    hide Grouped, Pages;
    assert accepted[..|accepted|] == accepted;
    pages := WritePages(bySubject);
  }

  /** A claim's id tells its identity. */
  ghost predicate Determined(s: seq<Claim>) {
    forall c, d :: c in s && d in s && c.id == d.id ==> c.identity == d.identity
  }

  ghost predicate HasLine(s: seq<Claim>, subject: string, id: ClaimId) {
    exists c :: c in s && c.identity.subject == subject && c.id == id
  }

  ghost predicate InGroups(groups: Groups, subject: string, id: ClaimId) {
    subject in groups && id in groups[subject]
  }

  ghost predicate LineIn(groups: Groups, subject: string, id: ClaimId, line: Line) {
    InGroups(groups, subject, id) && groups[subject][id] == line
  }

  /** Every line comes from a claim, and every claim has its line. */
  lemma {:induction false} GroupedIsComplete(s: seq<Claim>, subject: string, id: ClaimId)
    ensures InGroups(Grouped(s), subject, id) <==> HasLine(s, subject, id)
  {
    if s != [] {
      var init, last := s[..|s| - 1], s[|s| - 1];
      GroupedIsComplete(init, subject, id);
      assert forall c :: c in s <==> c in init || c == last;
      hide LineOf;
    }
  }

  ghost predicate HasSubject(s: seq<Claim>, subject: string) {
    exists c :: c in s && c.identity.subject == subject
  }

  lemma {:induction false} GroupedSubjects(s: seq<Claim>, subject: string)
    ensures subject in Grouped(s) <==> HasSubject(s, subject)
  {
    if s != [] {
      var init, last := s[..|s| - 1], s[|s| - 1];
      GroupedSubjects(init, subject);
      assert forall c :: c in s <==> c in init || c == last;
      hide LineOf;
    }
  }

  /** No later claim goes to the same line. */
  ghost predicate LastOfLine(s: seq<Claim>, i: nat) {
    i < |s| && forall j :: i < j < |s| ==> s[j].id != s[i].id || s[j].identity.subject != s[i].identity.subject
  }

  /** The last claim of a line decides it. */
  lemma {:induction false} LastGivesTheLine(s: seq<Claim>, i: nat)
    requires LastOfLine(s, i)
    ensures LineIn(Grouped(s), s[i].identity.subject, s[i].id, LineOf(s[i]))
  {
    hide LineOf;
    var init, last := s[..|s| - 1], s[|s| - 1];
    if i < |init| {
      assert LastOfLine(init, i) by {
        assert forall j :: i < j < |init| ==> init[j] == s[j];
      }
      LastGivesTheLine(init, i);
      hide LastOfLine, Grouped;
      KeepsLine(Grouped(init), last, s[i].identity.subject, s[i].id, LineOf(s[i]));
      assert Grouped(s) == AddLine(Grouped(init), last) by { SplitGrouped(s); }
    }
  }

  lemma SplitGrouped(s: seq<Claim>)
    requires s != []
    ensures Grouped(s) == AddLine(Grouped(s[..|s| - 1]), s[|s| - 1])
  {
  }

  lemma KeepsLine(groups: Groups, c: Claim, subject: string, id: ClaimId, line: Line)
    requires LineIn(groups, subject, id, line) && (c.id != id || c.identity.subject != subject)
    ensures LineIn(AddLine(groups, c), subject, id, line)
  {
  }

  lemma {:induction false} LastClaimOfLine(s: seq<Claim>, subject: string, id: ClaimId) returns (i: nat)
    requires HasLine(s, subject, id)
    ensures LastOfLine(s, i) && s[i].identity.subject == subject && s[i].id == id
  {
    i := |s| - 1;
    if s[i].identity.subject != subject || s[i].id != id {
      assert forall c :: c in s <==> c in s[..i] || c == s[i];
      i := LastClaimOfLine(s[..i], subject, id);
    }
  }

  lemma LineIsTheClaims(s: seq<Claim>, c: Claim)
    requires Determined(s) && c in s
    ensures LineIn(Grouped(s), c.identity.subject, c.id, LineOf(c))
  {
    assert HasLine(s, c.identity.subject, c.id);
    var i := LastClaimOfLine(s, c.identity.subject, c.id);
    LastGivesTheLine(s, i);
    hide Grouped, LastOfLine;
    assert s[i] in s;
  }

  /** Pages depend only on which claims there are. */
  lemma RenderForgetsOrder(s: seq<Claim>, t: seq<Claim>)
    requires Determined(s) && forall c :: c in s <==> c in t
    ensures Render(s) == Render(t)
  {
    assert Determined(t);
    forall subject
      ensures subject in Grouped(s) <==> subject in Grouped(t)
    {
      GroupedSubjects(s, subject);
      GroupedSubjects(t, subject);
    }
    forall subject, id, line
      ensures LineIn(Grouped(s), subject, id, line) <==> LineIn(Grouped(t), subject, id, line)
    {
      GroupedIsComplete(s, subject, id);
      GroupedIsComplete(t, subject, id);
      if HasLine(s, subject, id) {
        var c :| c in s && c.identity.subject == subject && c.id == id;
        LineIsTheClaims(s, c);
        LineIsTheClaims(t, c);
      }
    }
    SameGroups(Grouped(s), Grouped(t));
  }

  lemma SameGroups(g: Groups, h: Groups)
    requires forall subject, id, line :: LineIn(g, subject, id, line) <==> LineIn(h, subject, id, line)
    requires forall subject :: subject in g <==> subject in h
    ensures g == h
  {
    forall subject | subject in g
      ensures g[subject] == h[subject]
    {
      forall id
        ensures id in g[subject] <==> id in h[subject]
        ensures id in g[subject] ==> g[subject][id] == h[subject][id]
      {
        if id in g[subject] {
          assert LineIn(g, subject, id, g[subject][id]);
          assert LineIn(h, subject, id, g[subject][id]);
        }
        if id in h[subject] {
          assert LineIn(h, subject, id, h[subject][id]);
          assert LineIn(g, subject, id, h[subject][id]);
        }
      }
    }
  }

  // ---------------------------------------------------------------- citations

  datatype Entry = Entry(assertion: nat, source: nat, evidence: nat, locators: string)

  type Citations = map<ClaimId, seq<Entry>>

  function EntryOf(nfc: Normalizer, c: Claim): Entry {
    Entry(c.assertion, c.source, c.evidence, nfc(c.locators))
  }

  function EntryKey(e: Entry): nat {
    e.assertion
  }

  function ClaimKey(c: Claim): nat {
    c.assertion
  }

  function Ids(s: seq<Claim>): set<ClaimId> {
    set c | c in s :: c.id
  }

  /** The entries of a claim, in list order. */
  function Entries(nfc: Normalizer, s: seq<Claim>, id: ClaimId): seq<Entry> {
    if s == [] then []
    else Entries(nfc, s[..|s| - 1], id) + if s[|s| - 1].id == id then [EntryOf(nfc, s[|s| - 1])] else []
  }

  function Cite(nfc: Normalizer, s: seq<Claim>): Citations {
    map id | id in Ids(s) :: Sort(EntryKey, Entries(nfc, s, id))
  }

  /** The entries of every claim, in list order. */
  method CollectEntries(nfc: Normalizer, accepted: seq<Claim>) returns (entries: Citations)
    ensures entries.Keys == Ids(accepted)
    ensures forall id :: id in entries ==> entries[id] == Entries(nfc, accepted, id)
  {
    entries := map[];
    for i := 0 to |accepted|
      invariant entries.Keys == Ids(accepted[..i])
      invariant forall id :: id in entries ==> entries[id] == Entries(nfc, accepted[..i], id)
    {
      var c := accepted[i];
      OneMoreEntry(nfc, accepted, i);
      hide Entries, Ids, EntryOf;
      entries := entries[c.id := (if c.id in entries then entries[c.id] else []) + [EntryOf(nfc, c)]];
    }
    assert accepted[..|accepted|] == accepted;
  }

  method BuildCitationIndex(nfc: Normalizer, accepted: seq<Claim>) returns (index: Citations)
    ensures index == Cite(nfc, accepted)
  {
    hide Entries, Sort, Ids;
    var entries := CollectEntries(nfc, accepted);
    index := map id | id in entries :: Sort(EntryKey, entries[id]);
  }

  lemma OneMoreEntry(nfc: Normalizer, s: seq<Claim>, i: nat)
    requires i < |s|
    ensures Ids(s[..i + 1]) == Ids(s[..i]) + {s[i].id}
    ensures forall id :: Entries(nfc, s[..i + 1], id) ==
                         Entries(nfc, s[..i], id) + if s[i].id == id then [EntryOf(nfc, s[i])] else []
    ensures s[i].id !in Ids(s[..i]) ==> Entries(nfc, s[..i], s[i].id) == []
  {
    assert s[..i + 1][..i] == s[..i];
    assert forall c :: c in s[..i + 1] <==> c in s[..i] || c == s[i];
    if s[i].id !in Ids(s[..i]) {
      NoEntries(nfc, s[..i], s[i].id);
    }
  }

  lemma {:induction false} NoEntries(nfc: Normalizer, s: seq<Claim>, id: ClaimId)
    requires id !in Ids(s)
    ensures Entries(nfc, s, id) == []
  {
    if s != [] {
      NoEntries(nfc, s[..|s| - 1], id);
    }
  }

  /** Entries of a sorted list come in order. */
  lemma {:induction false} EntriesBelow(nfc: Normalizer, s: seq<Claim>, id: ClaimId, bound: nat)
    requires forall c :: c in s ==> ClaimKey(c) <= bound
    ensures forall e :: e in Entries(nfc, s, id) ==> EntryKey(e) <= bound
  {
    if s != [] {
      assert s[|s| - 1] in s && forall c :: c in s[..|s| - 1] ==> c in s;
      EntriesBelow(nfc, s[..|s| - 1], id, bound);
    }
  }

  lemma InsertBehind<T>(key: T -> nat, x: T, s: seq<T>)
    requires forall y :: y in s ==> key(y) <= key(x)
    ensures Insert(key, x, s) == s + [x]
  {
    if s != [] {
      assert s[|s| - 1] in s;
    }
  }

  lemma InsertBefore<T>(key: T -> nat, x: T, s: seq<T>, last: T)
    requires key(last) > key(x)
    ensures Insert(key, x, s + [last]) == Insert(key, x, s) + [last]
  {
    assert (s + [last])[..|s|] == s;
  }

  lemma {:induction false} EntriesOfInsert(nfc: Normalizer, c: Claim, s: seq<Claim>, id: ClaimId)
    requires Sorted(ClaimKey, s)
    ensures Entries(nfc, Insert(ClaimKey, c, s), id) ==
            if c.id == id then Insert(EntryKey, EntryOf(nfc, c), Entries(nfc, s, id)) else Entries(nfc, s, id)
  {
    if s == [] || ClaimKey(s[|s| - 1]) <= ClaimKey(c) {
      EntriesAppend(nfc, s, c, id);
      assert forall d :: d in s ==> ClaimKey(d) <= ClaimKey(c);
      EntriesBelow(nfc, s, id, ClaimKey(c));
      InsertBehind(EntryKey, EntryOf(nfc, c), Entries(nfc, s, id));
    } else {
      var init, last := s[..|s| - 1], s[|s| - 1];
      assert Sorted(ClaimKey, init);
      hide Entries, Insert, Sorted;
      SplitLast(s);
      EntriesOfInsert(nfc, c, init, id);
      EntriesAppend(nfc, init, last, id);
      EntriesAppend(nfc, Insert(ClaimKey, c, init), last, id);
      InsertBefore(ClaimKey, c, init, last);
      if last.id == id {
        InsertBefore(EntryKey, EntryOf(nfc, c), Entries(nfc, init, id), EntryOf(nfc, last));
      }
    }
  }

  lemma EntriesAppend(nfc: Normalizer, s: seq<Claim>, c: Claim, id: ClaimId)
    ensures Entries(nfc, s + [c], id) ==
            if c.id == id then Entries(nfc, s, id) + [EntryOf(nfc, c)] else Entries(nfc, s, id)
  {
    assert (s + [c])[..|s|] == s;
    assert Entries(nfc, s, id) + [] == Entries(nfc, s, id);
  }

  lemma {:induction false} EntriesOfSort(nfc: Normalizer, s: seq<Claim>, id: ClaimId)
    ensures Entries(nfc, Sort(ClaimKey, s), id) == Sort(EntryKey, Entries(nfc, s, id))
  {
    if s != [] {
      var init, last := s[..|s| - 1], s[|s| - 1];
      EntriesOfSort(nfc, init, id);
      SortIsSorted(ClaimKey, init);
      EntriesOfInsert(nfc, last, Sort(ClaimKey, init), id);
      var entries := Entries(nfc, init, id);
      if last.id == id {
        assert (entries + [EntryOf(nfc, last)])[..|entries|] == entries;
      } else {
        assert entries + [] == entries;
      }
    }
  }

  /** The citation index does not change when the claims are sorted first. */
  lemma CiteOfSort(nfc: Normalizer, s: seq<Claim>)
    ensures Cite(nfc, Sort(ClaimKey, s)) == Cite(nfc, s)
  {
    var t := Sort(ClaimKey, s);
    forall id
      ensures id in Ids(t) <==> id in Ids(s)
      ensures Sort(EntryKey, Entries(nfc, t, id)) == Sort(EntryKey, Entries(nfc, s, id))
    {
      forall c
        ensures c in t <==> c in s
      {
        SortMembers(ClaimKey, s, c);
      }
      EntriesOfSort(nfc, s, id);
      SortIsSorted(EntryKey, Entries(nfc, s, id));
      SortOfSorted(EntryKey, Sort(EntryKey, Entries(nfc, s, id)));
    }
    hide Sort, Entries;
  }

  lemma {:induction false} EntriesOfNorm(nfc: Normalizer, s: seq<Claim>, id: ClaimId)
    requires Idempotent(nfc)
    ensures Entries(nfc, NormAll(nfc, s), id) == Entries(nfc, s, id)
  {
    if s != [] {
      EntriesOfNorm(nfc, s[..|s| - 1], id);
      assert NormAll(nfc, s)[..|s| - 1] == NormAll(nfc, s[..|s| - 1]) by { NormAllMembers(nfc, s[..|s| - 1]); }
    }
  }

  lemma IdsOfNorm(nfc: Normalizer, s: seq<Claim>)
    ensures Ids(NormAll(nfc, s)) == Ids(s)
  {
    NormAllMembers(nfc, s);
    hide NormAll;
    SameIds(s, NormAll(nfc, s));
    SameIds(NormAll(nfc, s), s);
  }

  lemma SameIds(s: seq<Claim>, t: seq<Claim>)
    requires |s| == |t| && forall i :: 0 <= i < |s| ==> s[i].id == t[i].id
    ensures Ids(s) <= Ids(t)
  {
    forall id | id in Ids(s)
      ensures id in Ids(t)
    {
      var c :| c in s && c.id == id;
      var i :| 0 <= i < |s| && s[i] == c;
      assert t[i] in t;
    }
  }

  lemma CiteOfNorm(nfc: Normalizer, s: seq<Claim>)
    requires Idempotent(nfc)
    ensures Cite(nfc, NormAll(nfc, s)) == Cite(nfc, s)
  {
    IdsOfNorm(nfc, s);
    forall id
      ensures Entries(nfc, NormAll(nfc, s), id) == Entries(nfc, s, id)
    {
      EntriesOfNorm(nfc, s, id);
    }
    hide Sort, Entries, NormAll, Ids;
  }

  // ---------------------------------------------------------------- snapshots

  /** The snapshot file: the records in order, normalized. */
  function Snap(nfc: Normalizer, s: seq<Claim>): seq<Claim> {
    NormAll(nfc, Sort(ClaimKey, s))
  }

  lemma SnapMembers(nfc: Normalizer, s: seq<Claim>, c: Claim)
    ensures c in Snap(nfc, s) <==> c in NormAll(nfc, s)
  {
    var t := Sort(ClaimKey, s);
    NormAllMembers(nfc, s);
    NormAllMembers(nfc, t);
    if c in NormAll(nfc, s) {
      var i :| 0 <= i < |s| && NormAll(nfc, s)[i] == c;
      SortMembers(ClaimKey, s, s[i]);
      var j :| 0 <= j < |t| && t[j] == s[i];
      assert Snap(nfc, s)[j] == c;
    }
    if c in Snap(nfc, s) {
      var j :| 0 <= j < |t| && Snap(nfc, s)[j] == c;
      SortMembers(ClaimKey, s, t[j]);
      var i :| 0 <= i < |s| && s[i] == t[j];
      assert NormAll(nfc, s)[i] == c;
    }
  }

  lemma NormIsWellFormed(nfc: Normalizer, c: Claim)
    requires Idempotent(nfc)
    ensures WellFormed(nfc, Norm(nfc, c)) <==> WellFormed(nfc, c)
  {
    assert NormIdentity(nfc, NormIdentity(nfc, c.identity)) == NormIdentity(nfc, c.identity);
  }

  /** A snapshot can be parsed exactly when every claim is bound to its own identity. */
  lemma SnapIsWellFormed(nfc: Normalizer, s: seq<Claim>)
    requires Idempotent(nfc)
    ensures AllWellFormed(nfc, Snap(nfc, s)) <==> AllWellFormed(nfc, s)
  {
    NormAllMembers(nfc, s);
    forall i | 0 <= i < |s|
      ensures WellFormed(nfc, NormAll(nfc, s)[i]) <==> WellFormed(nfc, s[i])
    {
      NormIsWellFormed(nfc, s[i]);
    }
    forall c
      ensures c in Snap(nfc, s) <==> c in NormAll(nfc, s)
    {
      SnapMembers(nfc, s, c);
    }
    hide WellFormed, Snap, NormAll;
    if AllWellFormed(nfc, Snap(nfc, s)) {
      forall i | 0 <= i < |s|
        ensures WellFormed(nfc, s[i])
      {
        assert NormAll(nfc, s)[i] in NormAll(nfc, s);
      }
    }
  }

  /** Rendering and citing what is parsed gives what the normalized claims give. */
  lemma SnapRenders(nfc: Normalizer, s: seq<Claim>)
    requires Idempotent(nfc) && AllWellFormed(nfc, s)
    ensures Render(Snap(nfc, s)) == Render(NormAll(nfc, s))
    ensures Cite(nfc, Snap(nfc, s)) == Cite(nfc, s)
  {
    CiteOfNorm(nfc, Sort(ClaimKey, s));
    CiteOfSort(nfc, s);
    NormIsDetermined(nfc, s);
    forall c
      ensures c in Snap(nfc, s) <==> c in NormAll(nfc, s)
    {
      SnapMembers(nfc, s, c);
    }
    RenderForgetsOrder(NormAll(nfc, s), Snap(nfc, s));
  }

  lemma NormIsDetermined(nfc: Normalizer, s: seq<Claim>)
    requires AllWellFormed(nfc, s)
    ensures Determined(NormAll(nfc, s))
  {
    NormAllMembers(nfc, s);
    forall c | c in NormAll(nfc, s)
      ensures c.id == Hashed(c.identity)
    {
      var i :| 0 <= i < |s| && NormAll(nfc, s)[i] == c;
      assert s[i] in s;
    }
  }

  // ----------------------------------------------- text that is not normalized

  /** No later claim has the same id. */
  ghost predicate LastOfId(s: seq<Claim>, i: nat) {
    i < |s| && forall j :: i < j < |s| ==> s[j].id != s[i].id
  }

  predicate NormalSubject(nfc: Normalizer, c: Claim) {
    nfc(c.identity.subject) == c.identity.subject
  }

  predicate NormalRest(nfc: Normalizer, c: Claim) {
    nfc(c.identity.predicate_) == c.identity.predicate_ && nfc(c.identity.object_) == c.identity.object_
  }

  /** The text that pages show is normalized: every subject, and predicate and object of the
      last claim of every id. */
  ghost predicate ShownIsNormal(nfc: Normalizer, s: seq<Claim>) {
    && (forall c :: c in s ==> NormalSubject(nfc, c))
    && (forall i: nat :: LastOfId(s, i) ==> NormalRest(nfc, s[i]))
  }

  lemma SamePagesSameGroups(g: Groups, h: Groups)
    requires Pages(g) == Pages(h)
    ensures g == h
  {
    forall subject
      ensures subject in g <==> subject in h
      ensures subject in g ==> g[subject] == h[subject]
    {
      assert subject in Pages(g) <==> subject in Pages(h);
      if subject in g {
        assert Pages(g)[subject] == Pages(h)[subject];
      }
    }
  }

  lemma UnnormalizedSubjectFails(nfc: Normalizer, s: seq<Claim>, c: Claim)
    requires Idempotent(nfc) && c in s && !NormalSubject(nfc, c)
    ensures Render(s) != Render(NormAll(nfc, s))
  {
    var subject, t := c.identity.subject, NormAll(nfc, s);
    hide Grouped;
    GroupedSubjects(s, subject);
    GroupedSubjects(t, subject);
    NormalSubjects(nfc, s);
    hide Idempotent, NormAll, PageOf;
    assert HasSubject(s, subject) && !HasSubject(t, subject);
    assert subject in Render(s) && subject !in Render(t);
  }

  lemma NormalSubjects(nfc: Normalizer, s: seq<Claim>)
    requires Idempotent(nfc)
    ensures forall d :: d in NormAll(nfc, s) ==> NormalSubject(nfc, d)
  {
    var t := NormAll(nfc, s);
    NormAllMembers(nfc, s);
    hide NormAll;
    forall d | d in t
      ensures NormalSubject(nfc, d)
    {
      var i :| 0 <= i < |t| && t[i] == d;
    }
  }

  lemma LastOfBoth(nfc: Normalizer, s: seq<Claim>, i: nat)
    requires LastOfId(s, i)
    ensures |NormAll(nfc, s)| == |s| && NormAll(nfc, s)[i] == Norm(nfc, s[i])
    ensures LastOfLine(s, i) && LastOfLine(NormAll(nfc, s), i)
  {
    NormAllMembers(nfc, s);
    hide NormAll;
    assert forall j :: i < j < |s| ==> NormAll(nfc, s)[j].id == s[j].id;
  }

  lemma SamePagesNormalRest(nfc: Normalizer, s: seq<Claim>, i: nat)
    requires LastOfId(s, i) && NormalSubject(nfc, s[i]) && Render(s) == Render(NormAll(nfc, s))
    ensures NormalRest(nfc, s[i])
  {
    var t, c := NormAll(nfc, s), s[i].identity;
    LastOfBoth(nfc, s, i);
    SamePagesSameGroups(Grouped(s), Grouped(t));
    LastGivesTheLine(s, i);
    LastGivesTheLine(t, i);
    hide Grouped, LastOfLine, LastOfId, Sanitize, NormAll, Render;
    assert LineOf(s[i]) == LineOf(t[i]);
    SanitizeRoundTrip(c.predicate_);
    SanitizeRoundTrip(nfc(c.predicate_));
    SanitizeRoundTrip(c.object_);
    SanitizeRoundTrip(nfc(c.object_));
  }

  lemma LastOfLineIsLastOfId(nfc: Normalizer, s: seq<Claim>, i: nat)
    requires AllWellFormed(nfc, s) && LastOfLine(s, i) && forall c :: c in s ==> NormalSubject(nfc, c)
    ensures LastOfId(s, i)
  {
    forall j | i < j < |s|
      ensures s[j].id != s[i].id
    {
      assert WellFormed(nfc, s[i]) && WellFormed(nfc, s[j]);
      assert NormalSubject(nfc, s[i]) && NormalSubject(nfc, s[j]);
    }
  }

  lemma NormalLine(nfc: Normalizer, s: seq<Claim>, subject: string, id: ClaimId, line: Line)
    requires AllWellFormed(nfc, s) && ShownIsNormal(nfc, s) && HasLine(s, subject, id)
    ensures LineIn(Grouped(s), subject, id, line) <==> LineIn(Grouped(NormAll(nfc, s)), subject, id, line)
  {
    var i := LastClaimOfLine(s, subject, id);
    LastOfLineIsLastOfId(nfc, s, i);
    LastOfBoth(nfc, s, i);
    LastGivesTheLine(s, i);
    LastGivesTheLine(NormAll(nfc, s), i);
    hide Grouped, LastOfLine, LastOfId, Sanitize, NormAll, AllWellFormed;
    assert NormalSubject(nfc, s[i]) && NormalRest(nfc, s[i]);
  }

  lemma LineInBoth(s: seq<Claim>, t: seq<Claim>, subject: string, id: ClaimId)
    requires |s| == |t|
    requires forall i :: 0 <= i < |s| ==> s[i].identity.subject == t[i].identity.subject && s[i].id == t[i].id
    ensures HasLine(s, subject, id) ==> HasLine(t, subject, id)
    ensures HasSubject(s, subject) ==> HasSubject(t, subject)
  {
    if c :| c in s && c.identity.subject == subject && c.id == id {
      var i :| 0 <= i < |s| && s[i] == c;
      assert t[i] in t;
    }
    if c :| c in s && c.identity.subject == subject {
      var i :| 0 <= i < |s| && s[i] == c;
      assert t[i] in t;
    }
  }

  lemma SameClaimsInLine(nfc: Normalizer, s: seq<Claim>, subject: string, id: ClaimId)
    requires forall c :: c in s ==> NormalSubject(nfc, c)
    ensures HasLine(s, subject, id) <==> HasLine(NormAll(nfc, s), subject, id)
    ensures HasSubject(s, subject) <==> HasSubject(NormAll(nfc, s), subject)
  {
    NormAllMembers(nfc, s);
    assert forall i :: 0 <= i < |s| ==> s[i] in s && NormalSubject(nfc, s[i]);
    hide NormAll, HasLine, HasSubject;
    LineInBoth(s, NormAll(nfc, s), subject, id);
    LineInBoth(NormAll(nfc, s), s, subject, id);
  }

  /** Pages are rendered from the text as it came.  They are those of the normalized claims
      exactly if what they show is normalized. */
  lemma RenderOfNorm(nfc: Normalizer, s: seq<Claim>)
    requires Idempotent(nfc) && AllWellFormed(nfc, s)
    ensures Render(s) == Render(NormAll(nfc, s)) <==> ShownIsNormal(nfc, s)
  {
    if Render(s) == Render(NormAll(nfc, s)) {
      forall c | c in s
        ensures NormalSubject(nfc, c)
      {
        if !NormalSubject(nfc, c) {
          UnnormalizedSubjectFails(nfc, s, c);
        }
      }
      hide Idempotent, AllWellFormed, Render, NormAll, NormalSubject, NormalRest;
      forall i: nat | LastOfId(s, i)
        ensures NormalRest(nfc, s[i])
      {
        assert s[i] in s;
        SamePagesNormalRest(nfc, s, i);
      }
    }
    if ShownIsNormal(nfc, s) {
      NormalTextRenders(nfc, s);
    }
  }

  lemma NormalTextRenders(nfc: Normalizer, s: seq<Claim>)
    requires AllWellFormed(nfc, s) && ShownIsNormal(nfc, s)
    ensures Grouped(s) == Grouped(NormAll(nfc, s))
  {
    var t := NormAll(nfc, s);
    hide Grouped, NormAll, HasLine, AllWellFormed, LineOf;
    forall subject
      ensures subject in Grouped(s) <==> subject in Grouped(t)
    {
      SameClaimsInLine(nfc, s, subject, Hashed(Identity("", "", "", true, "")));
      GroupedSubjects(s, subject);
      GroupedSubjects(t, subject);
    }
    forall subject, id, line
      ensures LineIn(Grouped(s), subject, id, line) <==> LineIn(Grouped(t), subject, id, line)
    {
      SameLines(nfc, s, subject, id, line);
    }
    hide ShownIsNormal, LineIn;
    SameGroups(Grouped(s), Grouped(t));
  }

  lemma SameLines(nfc: Normalizer, s: seq<Claim>, subject: string, id: ClaimId, line: Line)
    requires AllWellFormed(nfc, s) && ShownIsNormal(nfc, s)
    ensures LineIn(Grouped(s), subject, id, line) <==> LineIn(Grouped(NormAll(nfc, s)), subject, id, line)
  {
    hide Grouped, NormAll, HasLine, AllWellFormed, LineOf;
    GroupedIsComplete(s, subject, id);
    GroupedIsComplete(NormAll(nfc, s), subject, id);
    SameClaimsInLine(nfc, s, subject, id);
    if HasLine(s, subject, id) {
      NormalLine(nfc, s, subject, id, line);
    }
  }

  /** When ids tell identities, as they do unless two spellings of one identity meet, every
      claim is the last of its id as far as pages go. */
  lemma ShownOfDetermined(nfc: Normalizer, s: seq<Claim>)
    requires Determined(s)
    ensures ShownIsNormal(nfc, s) <==> forall c :: c in s ==> NormalSubject(nfc, c) && NormalRest(nfc, c)
  {
    if ShownIsNormal(nfc, s) {
      forall c | c in s
        ensures NormalRest(nfc, c)
      {
        var i := LastClaimOfId(s, c);
        assert s[i] in s && NormalRest(nfc, s[i]);
      }
    }
    if forall c :: c in s ==> NormalSubject(nfc, c) && NormalRest(nfc, c) {
      assert forall i: nat :: LastOfId(s, i) ==> s[i] in s;
    }
  }

  lemma {:induction false} LastClaimOfId(s: seq<Claim>, c: Claim) returns (i: nat)
    requires c in s
    ensures LastOfId(s, i) && s[i].id == c.id
  {
    i := |s| - 1;
    if s[i].id != c.id {
      i := LastClaimOfId(s[..i], c);
    }
  }
}
