/**
 From a generation's contents to the root over its accepted decisions: one decision for
 each claim, in the order of the claims, each with its assertions in order.
 */
module AcceptedClaims {
  import P = Publication
  import opened ClaimSetRoot
  import opened SortedListing

  /** State, policy and rationale are the same for every decision of a generation. */
  datatype Decision = Decision(claim: P.Claim, assertions: seq<P.AssertionId>)

  // --------------------------------------------------------------- decisions

  function AssertionsOf(content: P.Content, c: P.Claim): set<P.AssertionId> {
    set a | a in content && content[a].claim == c
  }

  /** Which assertion is for which claim: what a generation accepts. */
  function ClaimOf(content: P.Content): map<P.AssertionId, P.Claim> {
    map a | a in content :: content[a].claim
  }

  ghost predicate DecisionOk(content: P.Content, d: Decision) {
    d.claim in P.ClaimsOf(content) && Lists(d.assertions, AssertionsOf(content, d.claim))
  }

  /** One decision for every claim of the content. */
  ghost predicate Decides(content: P.Content, ds: seq<Decision>) {
    && (forall d :: d in ds ==> DecisionOk(content, d))
    && (forall c :: c in P.ClaimsOf(content) ==> exists i :: 0 <= i < |ds| && ds[i].claim == c)
    && (forall i, j :: 0 <= i < j < |ds| ==> ds[i].claim != ds[j].claim)
  }

  /** The decisions of a publication; the root does not depend on the order of the claims. */
  method Decisions(content: P.Content) returns (ds: seq<Decision>)
    ensures Decides(content, ds)
  {
    ds := [];
    var left := P.ClaimsOf(content);
    while left != {}
      invariant left <= P.ClaimsOf(content)
      invariant forall d :: d in ds ==> DecisionOk(content, d) && d.claim !in left
      invariant forall c :: c in P.ClaimsOf(content) && c !in left ==> exists i :: 0 <= i < |ds| && ds[i].claim == c
      invariant forall i, j :: 0 <= i < j < |ds| ==> ds[i].claim != ds[j].claim
      decreases left
    {
      var c :| c in left;
      var assertions := SortSet(AssertionsOf(content, c));
      ghost var before := ds;
      ds := ds + [Decision(c, assertions)];
      assert ds[|before|].claim == c;
      assert forall i :: 0 <= i < |before| ==> ds[i] == before[i];
      left := left - {c};
    }
  }

  /** Equal decisions of equal claims, seen from one assertion. */
  lemma DecisionTells(content: P.Content, ds: seq<Decision>, d: Decision)
    requires Decides(content, ds) && d.claim in P.ClaimsOf(content)
    ensures d in ds <==> DecisionOk(content, d)
  {
    var i :| 0 <= i < |ds| && ds[i].claim == d.claim;
    assert DecisionOk(content, ds[i]);
    if DecisionOk(content, d) {
      OneListing(d.assertions, ds[i].assertions, AssertionsOf(content, d.claim));
    }
    if d in ds {
      assert DecisionOk(content, d);
    }
  }

  lemma SameClaims(m: P.Content, n: P.Content, c: P.Claim)
    requires ClaimOf(m) == ClaimOf(n)
    ensures AssertionsOf(m, c) == AssertionsOf(n, c)
    ensures c in P.ClaimsOf(m) <==> c in P.ClaimsOf(n)
  {
    forall a
      ensures a in m <==> a in n
      ensures a in m ==> m[a].claim == n[a].claim
    {
      assert a in ClaimOf(m) <==> a in ClaimOf(n);
    }
  }

  lemma SameDecisions(m: P.Content, n: P.Content, ds: seq<Decision>, es: seq<Decision>, d: Decision)
    requires Decides(m, ds) && Decides(n, es) && ClaimOf(m) == ClaimOf(n)
    ensures d in ds <==> d in es
  {
    SameClaims(m, n, d.claim);
    if d.claim in P.ClaimsOf(m) {
      DecisionTells(m, ds, d);
      DecisionTells(n, es, d);
    }
  }

  lemma DecisionsTellClaims(m: P.Content, n: P.Content, ds: seq<Decision>, es: seq<Decision>, a: P.AssertionId)
    requires Decides(m, ds) && Decides(n, es) && forall d :: d in ds ==> d in es
    requires a in m
    ensures a in n && n[a].claim == m[a].claim
  {
    var c := m[a].claim;
    assert c in P.ClaimsOf(m);
    var i :| 0 <= i < |ds| && ds[i].claim == c;
    assert DecisionOk(m, ds[i]) && ds[i] in es && DecisionOk(n, ds[i]);
    assert a in AssertionsOf(m, c) && a in ds[i].assertions && a in AssertionsOf(n, c);
  }

  /** The root over the decisions commits to what is accepted: two generations have the same
      root exactly when they accept the same assertions for the same claims. */
  lemma RootCommitsToClaims(lessEq: Order<Decision>, m: P.Content, n: P.Content, ds: seq<Decision>, es: seq<Decision>)
    requires TotalOrder(lessEq) && Decides(m, ds) && Decides(n, es)
    ensures SetRoot(lessEq, ds) == SetRoot(lessEq, es) <==> ClaimOf(m) == ClaimOf(n)
  {
    hide TotalOrder, SetRoot;
    assert NoRepeats(ds) && NoRepeats(es);
    RootCommitsToSet(lessEq, ds, es);
    if ClaimOf(m) == ClaimOf(n) {
      forall d
        ensures multiset(ds)[d] == multiset(es)[d]
      {
        SameDecisions(m, n, ds, es, d);
        CountWithoutRepeats(ds, d);
        CountWithoutRepeats(es, d);
      }
    } else if multiset(ds) == multiset(es) {
      forall d
        ensures d in ds <==> d in es
      {
        assert d in multiset(ds) <==> d in multiset(es);
      }
      hide Decides;
      forall a
        ensures a in m ==> a in n && n[a].claim == m[a].claim
        ensures a in n ==> a in m
      {
        if a in m { DecisionsTellClaims(m, n, ds, es, a); }
        if a in n { DecisionsTellClaims(n, m, es, ds, a); }
      }
    }
  }
}
