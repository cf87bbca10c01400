/** The increasing listing of a set of numbers: there is one, and sorting finds it. */
module SortedListing {
  ghost predicate Increasing(s: seq<nat>) {
    forall i, j :: 0 <= i < j < |s| ==> s[i] < s[j]
  }

  ghost predicate Lists(s: seq<nat>, members: set<nat>) {
    Increasing(s) && forall x :: x in s <==> x in members
  }

  /** Sorting a set: the least element that is left comes next. */
  method SortSet(members: set<nat>) returns (s: seq<nat>)
    ensures Lists(s, members)
  {
    s := [];
    var left := members;
    while left != {}
      invariant left <= members && Lists(s, members - left)
      invariant forall x, y :: x in s && y in left ==> x < y
      decreases left
    {
      var least := Least(left);
      Append(s, members - left, least);
      assert members - (left - {least}) == members - left + {least};
      s := s + [least];
      left := left - {least};
    }
    assert members - left == members;
  }

  method Least(members: set<nat>) returns (least: nat)
    requires members != {}
    ensures least in members && forall y :: y in members ==> least <= y
  {
    least :| least in members;
    var others := members - {least};
    while others != {}
      invariant others <= members && least in members
      invariant forall y :: y in members && y !in others ==> least <= y
      decreases others
    {
      var y :| y in others;
      others := others - {y};
      if y < least { least := y; }
    }
  }

  lemma Append(s: seq<nat>, members: set<nat>, x: nat)
    requires Lists(s, members) && forall y :: y in s ==> y < x
    ensures Lists(s + [x], members + {x})
  {
    var t := s + [x];
    assert t[|s|] == x;
    forall i, j | 0 <= i < j < |t|
      ensures t[i] < t[j]
    {
      assert s[i] in s && (j < |s| ==> t[j] == s[j]);
    }
  }

  lemma EmptyListing(s: seq<nat>, members: set<nat>)
    requires Lists(s, members)
    ensures s == [] <==> members == {}
  {
    if s != [] {
      assert s[0] in members;
    } else {
      assert forall x :: x in members <==> x in s;
      assert members == {};
    }
  }

  lemma {:induction false} OneListing(s: seq<nat>, t: seq<nat>, members: set<nat>)
    requires Lists(s, members) && Lists(t, members)
    ensures s == t
    decreases |s|
  {
    EmptyListing(s, members);
    EmptyListing(t, members);
    if s != [] {
      var m, n := |s| - 1, |t| - 1;
      assert s[m] in t && t[n] in s;
      assert s[m] == t[n];
      Shorter(s, members);
      Shorter(t, members);
      OneListing(s[..m], t[..n], members - {s[m]});
      assert s == s[..m] + [s[m]] && t == t[..n] + [t[n]];
    }
  }

  lemma Shorter(s: seq<nat>, members: set<nat>)
    requires Lists(s, members) && s != []
    ensures Lists(s[..|s| - 1], members - {s[|s| - 1]})
  {
    var m := |s| - 1;
    forall x
      ensures x in s[..m] <==> x in members - {s[m]}
    {
      if x in s && x != s[m] {
        var i :| 0 <= i < |s| && s[i] == x;
        assert s[..m][i] == x;
      }
    }
  }
}
