/** The stable sort by a key that lists are put in order with. */
module StableSort {
  import opened Sequences

  /** Behind everything with the same or a smaller key. */
  function Insert<T>(key: T -> nat, x: T, s: seq<T>): seq<T> {
    if s == [] || key(s[|s| - 1]) <= key(x) then s + [x]
    else Insert(key, x, s[..|s| - 1]) + [s[|s| - 1]]
  }

  function Sort<T>(key: T -> nat, s: seq<T>): seq<T> {
    if s == [] then [] else Insert(key, s[|s| - 1], Sort(key, s[..|s| - 1]))
  }

  ghost predicate Sorted<T>(key: T -> nat, s: seq<T>) {
    forall i, j :: 0 <= i < j < |s| ==> key(s[i]) <= key(s[j])
  }

  lemma {:induction false} InsertMultiset<T>(key: T -> nat, x: T, s: seq<T>)
    ensures multiset(Insert(key, x, s)) == multiset(s) + multiset{x}
  {
    if s != [] && key(s[|s| - 1]) > key(x) {
      SplitLast(s);
      InsertMultiset(key, x, s[..|s| - 1]);
    }
  }

  lemma AppendSorted<T>(key: T -> nat, s: seq<T>, x: T)
    requires Sorted(key, s) && forall y :: y in s ==> key(y) <= key(x)
    ensures Sorted(key, s + [x])
  {
  }

  lemma {:induction false} InsertIsSorted<T>(key: T -> nat, x: T, s: seq<T>)
    requires Sorted(key, s)
    ensures Sorted(key, Insert(key, x, s))
  {
    if s == [] {
    } else if key(s[|s| - 1]) <= key(x) {
      AppendSorted(key, s, x);
    } else {
      var init, last := s[..|s| - 1], s[|s| - 1];
      InsertIsSorted(key, x, init);
      InsertMultiset(key, x, init);
      var t := Insert(key, x, init);
      hide Insert;
      forall y | y in t
        ensures key(y) <= key(last)
      {
        assert y in multiset(t);
        if y != x {
          assert y in multiset(init);
          var i :| 0 <= i < |init| && init[i] == y;
          assert s[i] == y;
        }
      }
      AppendSorted(key, t, last);
    }
  }

  lemma {:induction false} SortMultiset<T>(key: T -> nat, s: seq<T>)
    ensures multiset(Sort(key, s)) == multiset(s)
  {
    if s != [] {
      SplitLast(s);
      SortMultiset(key, s[..|s| - 1]);
      InsertMultiset(key, s[|s| - 1], Sort(key, s[..|s| - 1]));
    }
  }

  lemma {:induction false} SortIsSorted<T>(key: T -> nat, s: seq<T>)
    ensures Sorted(key, Sort(key, s))
  {
    if s != [] {
      SortIsSorted(key, s[..|s| - 1]);
      InsertIsSorted(key, s[|s| - 1], Sort(key, s[..|s| - 1]));
    }
  }

  lemma {:induction false} SortOfSorted<T>(key: T -> nat, s: seq<T>)
    requires Sorted(key, s)
    ensures Sort(key, s) == s
  {
    if s != [] {
      SplitLast(s);
      SortOfSorted(key, s[..|s| - 1]);
    }
  }

  lemma SortMembers<T>(key: T -> nat, s: seq<T>, x: T)
    ensures x in Sort(key, s) <==> x in s
  {
    SortMultiset(key, s);
    assert x in multiset(Sort(key, s)) <==> x in multiset(s);
  }

  /** No two different members have the same key. */
  ghost predicate KeyTells<T(!new)>(key: T -> nat, s: seq<T>) {
    forall x, y :: x in s && y in s && key(x) == key(y) ==> x == y
  }

  lemma LastIsGreatest<T>(key: T -> nat, s: seq<T>, x: T)
    requires Sorted(key, s) && x in multiset(s)
    ensures s != [] && key(x) <= key(s[|s| - 1])
  {
    var i :| 0 <= i < |s| && s[i] == x;
  }

  lemma SameLast<T(!new)>(key: T -> nat, s: seq<T>, t: seq<T>, x: T, y: T)
    requires Sorted(key, s) && Sorted(key, t) && KeyTells(key, s)
    requires x in multiset(s) && y in multiset(s) && x in multiset(t) && y in multiset(t)
    requires s[|s| - 1] == x && t[|t| - 1] == y
    ensures x == y
  {
    LastIsGreatest(key, t, x);
    LastIsGreatest(key, s, y);
    hide Sorted;
    assert x in s && y in s;
  }

  lemma RestsAgree<T>(s: seq<T>, t: seq<T>)
    requires multiset(s) == multiset(t) && s != [] && t != [] && s[|s| - 1] == t[|t| - 1]
    ensures multiset(s[..|s| - 1]) == multiset(t[..|t| - 1])
  {
    SplitLast(s);
    SplitLast(t);
    assert multiset(s[..|s| - 1]) == multiset(s) - multiset{s[|s| - 1]};
  }

  lemma LastsAgree<T(!new)>(key: T -> nat, s: seq<T>, t: seq<T>)
    requires Sorted(key, s) && Sorted(key, t) && multiset(s) == multiset(t) && KeyTells(key, s) && s != []
    ensures t != [] && s[|s| - 1] == t[|t| - 1]
    ensures multiset(s[..|s| - 1]) == multiset(t[..|t| - 1])
  {
    hide Sorted, KeyTells;
    assert |s| == |multiset(s)| == |multiset(t)| == |t|;
    assert s[|s| - 1] in multiset(s) && t[|t| - 1] in multiset(t);
    SameLast(key, s, t, s[|s| - 1], t[|t| - 1]);
    RestsAgree(s, t);
  }

  /** When the key tells the members apart, sorting forgets the order. */
  lemma {:induction false} OneOrder<T(!new)>(key: T -> nat, s: seq<T>, t: seq<T>)
    requires Sorted(key, s) && Sorted(key, t) && multiset(s) == multiset(t) && KeyTells(key, s)
    ensures s == t
  {
    hide Sorted, KeyTells;
    if s == [] {
      assert |t| == |multiset(t)| == |multiset(s)| == 0;
    } else {
      LastsAgree(key, s, t);
      Shorten(key, s);
      Shorten(key, t);
      SplitLast(s);
      SplitLast(t);
      OneOrder(key, s[..|s| - 1], t[..|t| - 1]);
    }
  }

  lemma Shorten<T(!new)>(key: T -> nat, s: seq<T>)
    requires Sorted(key, s) && s != []
    ensures Sorted(key, s[..|s| - 1])
    ensures KeyTells(key, s) ==> KeyTells(key, s[..|s| - 1])
  {
    assert forall x :: x in s[..|s| - 1] ==> x in s;
  }

  /** Two lists of the same things sort alike. */
  lemma SortForgetsOrder<T(!new)>(key: T -> nat, s: seq<T>, t: seq<T>)
    requires multiset(s) == multiset(t) && KeyTells(key, s)
    ensures Sort(key, s) == Sort(key, t)
  {
    SortMultiset(key, s);
    SortMultiset(key, t);
    SortIsSorted(key, s);
    SortIsSorted(key, t);
    forall x
      ensures x in Sort(key, s) <==> x in s
    {
      SortMembers(key, s, x);
    }
    hide Sort;
    OneOrder(key, Sort(key, s), Sort(key, t));
  }
}
