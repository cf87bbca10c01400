/**
 The order-independent Merkle root over accepted claims: leaf hashes are sorted, then
 paired level by level, and an odd last node is paired with itself.

 Digests are compared by a total order that is left open (the program compares bytes),
 and the hash is a free constructor with its three prefixes (empty, leaf, node).
 */
module ClaimSetRoot {
  import opened Sequences

  datatype Digest<D> = EmptySet | Leaf(data: D) | Node(left: Digest<D>, right: Digest<D>)

  type Order<!D> = (Digest<D>, Digest<D>) -> bool

  ghost predicate TotalOrder<D(!new)>(lessEq: Order<D>) {
    && (forall a, b :: lessEq(a, b) || lessEq(b, a))
    && (forall a, b :: lessEq(a, b) && lessEq(b, a) ==> a == b)
    && (forall a, b, c :: lessEq(a, b) && lessEq(b, c) ==> lessEq(a, c))
  }

  // ---------------------------------------------------------------- sorting

  ghost predicate SortedBy<D>(lessEq: Order<D>, s: seq<Digest<D>>) {
    forall i, j :: 0 <= i < j < |s| ==> lessEq(s[i], s[j])
  }

  function Insert<D>(lessEq: Order<D>, x: Digest<D>, s: seq<Digest<D>>): (r: seq<Digest<D>>)
    ensures multiset(r) == multiset([x]) + multiset(s)
  {
    if s == [] then [x]
    else if lessEq(x, s[0]) then [x] + s
    else
      assert s == [s[0]] + s[1..];
      [s[0]] + Insert(lessEq, x, s[1..])
  }

  function Sort<D>(lessEq: Order<D>, s: seq<Digest<D>>): (r: seq<Digest<D>>)
    ensures multiset(r) == multiset(s)
    ensures |r| == |s|
  {
    if s == [] then [] else
      assert s == [s[0]] + s[1..];
      var r := Insert(lessEq, s[0], Sort(lessEq, s[1..]));
      assert |r| == |multiset(r)| && |s| == |multiset(s)|;
      r
  }

  lemma {:induction false} InsertKeepsSorted<D(!new)>(lessEq: Order<D>, x: Digest<D>, s: seq<Digest<D>>)
    requires TotalOrder(lessEq) && SortedBy(lessEq, s)
    ensures SortedBy(lessEq, Insert(lessEq, x, s))
  {
    if s != [] && !lessEq(x, s[0]) {
      var r := Insert(lessEq, x, s[1..]);
      InsertKeepsSorted(lessEq, x, s[1..]);
      forall j | 0 <= j < |r|
        ensures lessEq(s[0], r[j])
      {
        assert r[j] in multiset(r);
        assert r[j] == x || r[j] in s[1..];
      }
    }
  }

  lemma {:induction false} SortIsSorted<D(!new)>(lessEq: Order<D>, s: seq<Digest<D>>)
    requires TotalOrder(lessEq)
    ensures SortedBy(lessEq, Sort(lessEq, s))
  {
    if s != [] {
      SortIsSorted(lessEq, s[1..]);
      InsertKeepsSorted(lessEq, s[0], Sort(lessEq, s[1..]));
    }
  }

  lemma HeadIsLeast<D(!new)>(lessEq: Order<D>, s: seq<Digest<D>>, x: Digest<D>)
    requires TotalOrder(lessEq) && SortedBy(lessEq, s) && x in multiset(s)
    ensures lessEq(s[0], x)
  {
    var i :| 0 <= i < |s| && s[i] == x;
    assert lessEq(x, x);
  }

  lemma HeadAndTail<D>(s: seq<Digest<D>>)
    requires s != []
    ensures s == [s[0]] + s[1..]
    ensures multiset(s) == multiset{s[0]} + multiset(s[1..])
  {
    assert s == [s[0]] + s[1..];
  }

  /** A multiset has one sorted listing. */
  lemma {:induction false} SortedListingIsUnique<D(!new)>(lessEq: Order<D>, a: seq<Digest<D>>, b: seq<Digest<D>>)
    requires TotalOrder(lessEq) && SortedBy(lessEq, a) && SortedBy(lessEq, b)
    requires multiset(a) == multiset(b)
    ensures a == b
  {
    if a == [] {
      assert |b| == |multiset(b)| == 0;
    } else {
      assert |b| == |multiset(b)| == |multiset(a)| == |a|;
      HeadIsLeast(lessEq, b, a[0]);
      HeadIsLeast(lessEq, a, b[0]);
      assert a[0] == b[0];
      assert SortedBy(lessEq, a[1..]) && SortedBy(lessEq, b[1..]);
      hide TotalOrder, SortedBy;
      HeadAndTail(a);
      HeadAndTail(b);
      assert multiset(a[1..]) == multiset(a) - multiset{a[0]};
      SortedListingIsUnique(lessEq, a[1..], b[1..]);
    }
  }

  // --------------------------------------------------------------- the root

  /** One level: neighbours are paired, an odd last node is paired with itself. */
  ghost function PairUp<D>(nodes: seq<Digest<D>>): (r: seq<Digest<D>>)
    ensures |r| == (|nodes| + 1) / 2
  {
    seq((|nodes| + 1) / 2, i requires 0 <= i < (|nodes| + 1) / 2 =>
      Node(nodes[2 * i], if 2 * i + 1 < |nodes| then nodes[2 * i + 1] else nodes[2 * i]))
  }

  ghost function Top<D>(nodes: seq<Digest<D>>): Digest<D>
    requires nodes != []
    decreases |nodes|
  {
    if |nodes| == 1 then nodes[0] else Top(PairUp(nodes))
  }

  function LeafNodes<D>(leaves: seq<D>): seq<Digest<D>> {
    seq(|leaves|, i requires 0 <= i < |leaves| => Leaf(leaves[i]))
  }

  ghost function SetRoot<D>(lessEq: Order<D>, leaves: seq<D>): Digest<D> {
    if leaves == [] then EmptySet else Top(Sort(lessEq, LeafNodes(leaves)))
  }

  method MerkleRoot<D>(lessEq: Order<D>, leaves: seq<D>) returns (root: Digest<D>)
    ensures root == SetRoot(lessEq, leaves)
  {
    if leaves == [] { return EmptySet; }
    var nodes := Sort(lessEq, LeafNodes(leaves));
    while |nodes| > 1
      invariant nodes != [] && Top(nodes) == SetRoot(lessEq, leaves)
      decreases |nodes|
    {
      var next: seq<Digest<D>> := [];
      var i := 0;
      while i < |nodes|
        invariant 0 <= i <= |nodes| + 1 && i % 2 == 0
        invariant |next| == i / 2
        invariant forall k :: 0 <= k < |next| ==> next[k] == PairUp(nodes)[k]
      {
        var left := nodes[i];
        var right := if i + 1 < |nodes| then nodes[i + 1] else nodes[i];
        assert PairUp(nodes)[i / 2] == Node(left, right);
        next := next + [Node(left, right)];
        i := i + 2;
      }
      assert next == PairUp(nodes);
      nodes := next;
    }
    root := nodes[0];
  }

  // ------------------------------------------------------ order independence

  lemma {:induction false} LeafNodesMultiset<D>(a: seq<D>, x: D)
    ensures multiset(LeafNodes(a))[Leaf(x)] == multiset(a)[x]
  {
    if a == [] {
      assert LeafNodes(a) == [];
    } else {
      LeafNodesMultiset(a[1..], x);
      assert LeafNodes(a) == [Leaf(a[0])] + LeafNodes(a[1..]);
      assert a == [a[0]] + a[1..];
    }
  }

  lemma LeafNodesPermute<D>(a: seq<D>, b: seq<D>)
    ensures multiset(LeafNodes(a)) == multiset(LeafNodes(b)) <==> multiset(a) == multiset(b)
  {
    forall x
      ensures multiset(LeafNodes(a))[Leaf(x)] == multiset(a)[x]
      ensures multiset(LeafNodes(b))[Leaf(x)] == multiset(b)[x]
    {
      LeafNodesMultiset(a, x);
      LeafNodesMultiset(b, x);
    }
    if multiset(LeafNodes(a)) == multiset(LeafNodes(b)) {
      forall x
        ensures multiset(a)[x] == multiset(b)[x]
      {
      }
    } else if multiset(a) == multiset(b) {
      forall d
        ensures multiset(LeafNodes(a))[d] == multiset(LeafNodes(b))[d]
      {
        if !d.Leaf? {
          assert d !in LeafNodes(a) && d !in LeafNodes(b);
        }
      }
    }
  }

  /** The order of the claims does not matter. */
  lemma RootIgnoresOrder<D(!new)>(lessEq: Order<D>, a: seq<D>, b: seq<D>)
    requires TotalOrder(lessEq) && multiset(a) == multiset(b)
    ensures SetRoot(lessEq, a) == SetRoot(lessEq, b)
  {
    assert |a| == |multiset(a)| && |b| == |multiset(b)|;
    LeafNodesPermute(a, b);
    SortIsSorted(lessEq, LeafNodes(a));
    SortIsSorted(lessEq, LeafNodes(b));
    SortedListingIsUnique(lessEq, Sort(lessEq, LeafNodes(a)), Sort(lessEq, LeafNodes(b)));
  }

  // ------------------------------------------------ which lists have one tree

  /** The height of a digest's tree, along its left side. */
  ghost function Height<D>(d: Digest<D>): nat {
    match d
    case Node(l, _) => Height(l) + 1
    case _ => 0
  }

  ghost predicate AllAt<D>(s: seq<Digest<D>>, h: nat) {
    forall i :: 0 <= i < |s| ==> Height(s[i]) == h
  }

  lemma {:induction false} TopIsHigher<D>(s: seq<Digest<D>>, h: nat)
    requires s != [] && AllAt(s, h)
    ensures Height(Top(s)) >= h && (|s| > 1 ==> Height(Top(s)) > h)
    decreases |s|
  {
    if |s| > 1 {
      assert AllAt(PairUp(s), h + 1);
      TopIsHigher(PairUp(s), h + 1);
    }
  }

  /** Equal members stand side by side, as in a sorted list. */
  ghost predicate Contiguous<T>(s: seq<T>) {
    forall i, k, j :: 0 <= i <= k <= j < |s| && s[i] == s[j] ==> s[k] == s[i]
  }

  /** The list ends in exactly `p` copies of its last member. */
  ghost predicate EndsIn<T>(s: seq<T>, p: nat) {
    && 1 <= p <= |s|
    && (forall i :: |s| - p <= i < |s| ==> s[i] == s[|s| - 1])
    && (p < |s| ==> s[|s| - p - 1] != s[|s| - 1])
  }

  function Copies<T>(x: T, d: nat): seq<T> {
    seq(d, _ => x)
  }

  /** How long a list of `n` nodes that ends in `p` equal ones may grow, by more of the same,
      before its tree changes.  An odd level is filled up with its last node; this goes on
      as long as that fills it up with more of the same. */
  function Reach(n: nat, p: nat): nat {
    if n <= 1 then n
    else
      var m, q := n + n % 2, p + n % 2;
      if q < 2 then m else 2 * Reach(m / 2, q / 2)
  }

  lemma {:induction false} ReachesItself(n: nat, p: nat)
    ensures Reach(n, p) >= n + (if n > 1 then n % 2 else 0)
  {
    if n > 1 && p + n % 2 >= 2 {
      ReachesItself((n + n % 2) / 2, (p + n % 2) / 2);
    }
  }

  /** `t` is `s` grown by copies of its last node, within reach. */
  ghost predicate GrownWithin<D>(s: seq<Digest<D>>, t: seq<Digest<D>>, p: nat)
    requires 0 < |s| <= |t|
  {
    && s <= t
    && (forall i :: |s| <= i < |t| ==> t[i] == s[|s| - 1])
    && |t| <= Reach(|s|, p)
  }

  lemma GrownByCopies<D>(s: seq<Digest<D>>, t: seq<Digest<D>>, p: nat)
    requires 0 < |s| <= |t|
    ensures GrownWithin(s, t, p) <==> t == s + Copies(s[|s| - 1], |t| - |s|) && |t| <= Reach(|s|, p)
  {
    if GrownWithin(s, t, p) {
      assert t == s + Copies(s[|s| - 1], |t| - |s|);
    }
  }

  lemma PairAt<D>(s: seq<Digest<D>>, i: nat)
    requires 2 * i < |s|
    ensures i < |PairUp(s)| && PairUp(s)[i] == Node(s[2 * i], if 2 * i + 1 < |s| then s[2 * i + 1] else s[2 * i])
  {
  }

  lemma PairUpIsContiguous<D>(s: seq<Digest<D>>)
    requires Contiguous(s)
    ensures Contiguous(PairUp(s))
  {
    forall i, k, j | 0 <= i <= k <= j < |PairUp(s)| && PairUp(s)[i] == PairUp(s)[j]
      ensures PairUp(s)[k] == PairUp(s)[i]
    {
      PairAt(s, i);
      PairAt(s, k);
      PairAt(s, j);
      hide PairUp;
      if i < k {
        assert s[2 * i + 1] == s[2 * i];
        assert s[2 * k] == s[2 * i];
        if k < j {
          assert s[2 * k + 1] == s[2 * i];
        }
      }
    }
  }

  /** How many equal nodes the level above ends in. */
  function RunAbove(n: nat, p: nat): nat {
    if p + n % 2 < 2 then 1 else (p + n % 2) / 2
  }

  lemma RunOfPairs<D>(s: seq<Digest<D>>, p: nat)
    requires |s| > 1 && Contiguous(s) && EndsIn(s, p)
    ensures EndsIn(PairUp(s), RunAbove(|s|, p))
  {
    var n, z := |s|, s[|s| - 1];
    var m, q := n + n % 2, p + n % 2;
    var up := PairUp(s);
    var r := RunAbove(n, p);
    assert m == 2 * |up|;
    if q < 2 {
      assert p == 1 && n % 2 == 0 && s[n - 2] != z;
      if |up| > 1 {
        PairAt(s, |up| - 2);
        PairAt(s, |up| - 1);
        hide PairUp;
        assert s[n - 3] != z;
      }
    } else {
      PairAt(s, |up| - 1);
      forall i | |up| - r <= i < |up|
        ensures up[i] == up[|up| - 1] == Node(z, z)
      {
        PairAt(s, i);
        assert 2 * i >= n - p;
      }
      if r < |up| {
        PairAt(s, |up| - r - 1);
        assert s[n - p - 1] != z;
        assert 2 * (|up| - r - 1) == n - p - 1 || 2 * (|up| - r - 1) + 1 == n - p - 1;
      }
    }
  }

  lemma ReachAbove(n: nat, p: nat, k: nat)
    requires n > 1 && p + n % 2 >= 2
    ensures k <= Reach(n, p) <==> (k + 1) / 2 <= Reach((n + 1) / 2, RunAbove(n, p))
  {
    assert (n + n % 2) / 2 == (n + 1) / 2;
    assert Reach(n, p) == 2 * Reach((n + 1) / 2, RunAbove(n, p));
  }

  /** Growing shows on the level above, when the last pair is two of the same. */
  lemma GrownPairs<D>(s: seq<Digest<D>>, t: seq<Digest<D>>, p: nat)
    requires 1 < |s| <= |t| && EndsIn(s, p) && GrownWithin(s, t, p)
    ensures GrownWithin(PairUp(s), PairUp(t), RunAbove(|s|, p))
  {
    var up, tp := PairUp(s), PairUp(t);
    if p + |s| % 2 < 2 {
      assert t == s;
      ReachesItself(|up|, 1);
    } else {
      ReachAbove(|s|, p, |t|);
      forall i | 0 <= i < |tp|
        ensures tp[i] == up[if i < |up| then i else |up| - 1]
      {
        PairOfGrown(s, t, p, i);
      }
      hide PairUp, EndsIn, Reach, RunAbove;
    }
  }

  lemma PairOfGrown<D>(s: seq<Digest<D>>, t: seq<Digest<D>>, p: nat, i: nat)
    requires 1 < |s| <= |t| && EndsIn(s, p) && GrownWithin(s, t, p) && p + |s| % 2 >= 2
    requires i < |PairUp(t)|
    ensures PairUp(t)[i] == PairUp(s)[if i < |PairUp(s)| then i else |PairUp(s)| - 1]
  {
    PairAt(t, i);
    PairAt(s, |PairUp(s)| - 1);
    if i < |PairUp(s)| {
      PairAt(s, i);
    }
  }

  /** The pairs of a list tell all but whether the last one was filled up. */
  lemma SamePairs<D>(s: seq<Digest<D>>, t: seq<Digest<D>>, i: nat)
    requires i < |PairUp(s)| && i < |PairUp(t)| && PairUp(s)[i] == PairUp(t)[i]
    ensures s[2 * i] == t[2 * i]
    ensures 2 * i + 1 < |s| && 2 * i + 1 < |t| ==> s[2 * i + 1] == t[2 * i + 1]
    ensures 2 * i + 1 < |s| && 2 * i + 1 == |t| ==> s[2 * i + 1] == t[2 * i]
    ensures 2 * i + 1 == |s| && 2 * i + 1 < |t| ==> t[2 * i + 1] == s[2 * i]
  {
    PairAt(s, i);
    PairAt(t, i);
    hide PairUp;
  }

  lemma SamePrefix<D>(s: seq<Digest<D>>, t: seq<Digest<D>>)
    requires |s| <= |t| && PairUp(s) <= PairUp(t)
    ensures t[..|s|] == s
  {
    forall i | 0 <= i < |s|
      ensures t[i] == s[i]
    {
      SamePairs(s, t, i / 2);
    }
  }

  /** A level that grew by copies of its last pair comes from a list that grew by copies of
      its last node: a pair of two different nodes cannot come twice in a sorted list. */
  lemma PairsGrown<D>(s: seq<Digest<D>>, t: seq<Digest<D>>, p: nat)
    requires 1 < |s| <= |t| && Contiguous(t) && EndsIn(s, p)
    requires GrownWithin(PairUp(s), PairUp(t), RunAbove(|s|, p))
    ensures GrownWithin(s, t, p)
  {
    var up, tp := PairUp(s), PairUp(t);
    SamePrefix(s, t);
    if p + |s| % 2 < 2 {
      if |t| > |s| {
        LastPairIsDouble(s, t, p);
      }
    } else {
      ReachAbove(|s|, p, |t|);
    }
    forall j | |s| <= j < |t|
      ensures t[j] == s[|s| - 1]
    {
      LastPairAgain(s, t, p, j);
    }
    ReachesItself(|s|, p);
    hide Contiguous, EndsIn, PairUp, Reach, RunAbove;
  }

  lemma LastPairAgain<D>(s: seq<Digest<D>>, t: seq<Digest<D>>, p: nat, j: nat)
    requires 1 < |s| <= j < |t| && t[..|s|] == s && EndsIn(s, p)
    requires |s| + |s| % 2 < |t| ==> p + |s| % 2 >= 2
    requires forall i :: |PairUp(s)| <= i < |PairUp(t)| ==> PairUp(t)[i] == PairUp(s)[|PairUp(s)| - 1]
    requires PairUp(s) <= PairUp(t)
    ensures t[j] == s[|s| - 1]
  {
    var up := PairUp(s);
    PairAt(t, j / 2);
    PairAt(s, |up| - 1);
    if j / 2 < |up| {
      SamePairs(s, t, j / 2);
    } else {
      assert PairUp(t)[j / 2] == up[|up| - 1];
      hide PairUp;
      assert |s| % 2 == 0 ==> s[|s| - 2] == s[|s| - 1];
    }
  }

  lemma LastPairIsDouble<D>(s: seq<Digest<D>>, t: seq<Digest<D>>, p: nat)
    requires 1 < |s| && |s| + |s| % 2 < |t| && Contiguous(t) && EndsIn(s, p)
    requires t[..|s|] == s && PairUp(t)[|PairUp(s)|] == PairUp(s)[|PairUp(s)| - 1]
    ensures p + |s| % 2 >= 2
  {
    var n := |s|;
    if n % 2 == 0 {
      PairAt(s, n / 2 - 1);
      PairAt(t, n / 2);
      hide PairUp;
      assert t[n] == s[n - 2] == t[n - 2] && t[n - 1] == s[n - 1];
      assert t[n - 1] == t[n - 2];
    }
  }

  /** Two lists with equal members side by side have one tree exactly when the longer is
      the shorter, grown within reach. */
  lemma {:induction false} TopIsExact<D>(s: seq<Digest<D>>, t: seq<Digest<D>>, p: nat, h: nat)
    requires 0 < |s| <= |t| && AllAt(s, h) && AllAt(t, h)
    requires Contiguous(s) && Contiguous(t) && EndsIn(s, p)
    ensures Top(s) == Top(t) <==> GrownWithin(s, t, p)
    decreases |t|
  {
    if |s| == 1 {
      OneNode(s, t, p, h);
    } else {
      assert AllAt(PairUp(s), h + 1) && AllAt(PairUp(t), h + 1);
      PairUpIsContiguous(s);
      PairUpIsContiguous(t);
      RunOfPairs(s, p);
      TopOfPairs(s);
      TopOfPairs(t);
      hide AllAt, Contiguous, EndsIn, PairUp, Top, GrownWithin, RunAbove;
      TopIsExact(PairUp(s), PairUp(t), RunAbove(|s|, p), h + 1);
      if GrownWithin(s, t, p) {
        GrownPairs(s, t, p);
      } else if GrownWithin(PairUp(s), PairUp(t), RunAbove(|s|, p)) {
        PairsGrown(s, t, p);
      }
    }
  }

  lemma OneNode<D>(s: seq<Digest<D>>, t: seq<Digest<D>>, p: nat, h: nat)
    requires |s| == 1 <= |t| && AllAt(s, h) && AllAt(t, h)
    ensures Top(s) == Top(t) <==> GrownWithin(s, t, p)
  {
    TopIsHigher(t, h);
    if |t| == 1 {
      assert s == [s[0]] && t == [t[0]];
    }
  }

  lemma TopOfPairs<D>(nodes: seq<Digest<D>>)
    requires |nodes| > 1
    ensures Top(nodes) == Top(PairUp(nodes)) && 0 < |PairUp(nodes)| < |nodes|
  {
  }

  // --------------------------------------------------- which leaves have one root

  lemma SortedIsContiguous<D(!new)>(lessEq: Order<D>, s: seq<Digest<D>>)
    requires TotalOrder(lessEq) && SortedBy(lessEq, s)
    ensures Contiguous(s)
  {
    forall i, k, j | 0 <= i <= k <= j < |s| && s[i] == s[j]
      ensures s[k] == s[i]
    {
      assert lessEq(s[i], s[i]);
      assert lessEq(s[i], s[k]) && lessEq(s[k], s[j]);
    }
  }

  lemma LongerRun<T>(s: seq<T>, p: nat)
    requires s != [] && EndsIn(s, p)
    ensures EndsIn(s + [s[|s| - 1]], p + 1)
  {
  }

  lemma RunOfOne<T>(s: seq<T>, z: T)
    requires Contiguous(s + [z]) && (s != [] ==> s[|s| - 1] != z)
    ensures EndsIn(s + [z], 1) && z !in s
  {
    forall i | 0 <= i < |s|
      ensures s[i] != z
    {
      assert (s + [z])[i] == s[i] && (s + [z])[|s| - 1] == s[|s| - 1] && (s + [z])[|s|] == z;
    }
  }

  lemma {:induction false} EndsInCopies<T>(s: seq<T>)
    requires Contiguous(s) && s != []
    ensures EndsIn(s, multiset(s)[s[|s| - 1]])
  {
    var init, z := s[..|s| - 1], s[|s| - 1];
    SplitLast(s);
    if init != [] && init[|init| - 1] == z {
      EndsInCopies(init);
      LongerRun(init, multiset(init)[z]);
    } else {
      RunOfOne(init, z);
    }
    hide *;
  }

  lemma {:induction false} CopiesCount<T>(x: T, d: nat)
    ensures multiset(Copies(x, d)) == multiset{}[x := d]
  {
    if d > 0 {
      CopiesCount(x, d - 1);
      assert Copies(x, d) == Copies(x, d - 1) + [x];
    }
  }

  ghost predicate Greatest<D>(lessEq: Order<D>, a: seq<D>, g: D) {
    g in a && forall y :: y in a ==> lessEq(Leaf(y), Leaf(g))
  }

  /** Appending copies of a greatest leaf appends its digest to the sorted list. */
  lemma SortWithGreatest<D(!new)>(lessEq: Order<D>, a: seq<D>, g: D, d: nat)
    requires TotalOrder(lessEq) && Greatest(lessEq, a, g)
    ensures Sort(lessEq, LeafNodes(a + Copies(g, d))) == Sort(lessEq, LeafNodes(a)) + Copies(Leaf(g), d)
  {
    var nodes, more := Sort(lessEq, LeafNodes(a)), Copies(Leaf(g), d);
    SortIsSorted(lessEq, LeafNodes(a));
    forall i | 0 <= i < |nodes|
      ensures lessEq(nodes[i], Leaf(g))
    {
      assert nodes[i] in multiset(LeafNodes(a));
      var j :| 0 <= j < |a| && LeafNodes(a)[j] == nodes[i];
      assert a[j] in a;
    }
    assert lessEq(Leaf(g), Leaf(g));
    assert SortedBy(lessEq, nodes + more);
    assert LeafNodes(a + Copies(g, d)) == LeafNodes(a) + more;
    SortIsSorted(lessEq, LeafNodes(a + Copies(g, d)));
    hide TotalOrder, SortedBy, LeafNodes, Copies, Greatest;
    SortedListingIsUnique(lessEq, nodes + more, Sort(lessEq, LeafNodes(a + Copies(g, d))));
  }

  /** `b` has the leaves of `a` and more copies of the greatest one, too few to show. */
  ghost predicate HiddenGrowth<D(!new)>(lessEq: Order<D>, a: seq<D>, b: seq<D>) {
    |a| < |b| &&
    exists g :: Greatest(lessEq, a, g) &&
                multiset(b) == multiset(a + Copies(g, |b| - |a|)) && |b| <= Reach(|a|, multiset(a)[g])
  }

  lemma LastIsGreatest<D(!new)>(lessEq: Order<D>, a: seq<D>) returns (g: D)
    requires TotalOrder(lessEq) && a != []
    ensures Greatest(lessEq, a, g)
    ensures var s := Sort(lessEq, LeafNodes(a)); s[|s| - 1] == Leaf(g) && EndsIn(s, multiset(a)[g])
  {
    var s := Sort(lessEq, LeafNodes(a));
    SortIsSorted(lessEq, LeafNodes(a));
    g := LastLeaf(lessEq, a);
    SortedIsContiguous(lessEq, s);
    hide TotalOrder, SortedBy, Contiguous, EndsIn;
    EndsInCopies(s);
    LeafNodesMultiset(a, g);
  }

  lemma LastLeaf<D(!new)>(lessEq: Order<D>, a: seq<D>) returns (g: D)
    requires TotalOrder(lessEq) && a != [] && SortedBy(lessEq, Sort(lessEq, LeafNodes(a)))
    ensures Greatest(lessEq, a, g)
    ensures var s := Sort(lessEq, LeafNodes(a)); s[|s| - 1] == Leaf(g)
  {
    var s := Sort(lessEq, LeafNodes(a));
    var z := s[|s| - 1];
    assert z in multiset(LeafNodes(a));
    var k :| 0 <= k < |a| && LeafNodes(a)[k] == z;
    g := a[k];
    forall y | y in a
      ensures lessEq(Leaf(y), z)
    {
      var j :| 0 <= j < |a| && a[j] == y;
      assert LeafNodes(a)[j] == Leaf(y) && Leaf(y) in multiset(s);
      LastIsAbove(lessEq, s, Leaf(y));
    }
  }

  lemma LastIsAbove<D(!new)>(lessEq: Order<D>, s: seq<Digest<D>>, x: Digest<D>)
    requires TotalOrder(lessEq) && SortedBy(lessEq, s) && x in multiset(s)
    ensures s != [] && lessEq(x, s[|s| - 1])
  {
    var i :| 0 <= i < |s| && s[i] == x;
    assert lessEq(x, x);
  }

  lemma OneGreatest<D(!new)>(lessEq: Order<D>, a: seq<D>, g: D, h: D)
    requires TotalOrder(lessEq) && Greatest(lessEq, a, g) && Greatest(lessEq, a, h)
    ensures g == h
  {
  }

  /** The sorted lists differ by copies of the last digest exactly when the leaves differ by
      copies of the greatest. */
  lemma GrownLeaves<D(!new)>(lessEq: Order<D>, a: seq<D>, b: seq<D>, g: D)
    requires TotalOrder(lessEq) && Greatest(lessEq, a, g) && |a| <= |b|
    ensures Sort(lessEq, LeafNodes(b)) == Sort(lessEq, LeafNodes(a)) + Copies(Leaf(g), |b| - |a|) <==>
            multiset(b) == multiset(a + Copies(g, |b| - |a|))
  {
    var c := a + Copies(g, |b| - |a|);
    SortWithGreatest(lessEq, a, g, |b| - |a|);
    LeafNodesPermute(b, c);
    hide Greatest, Copies;
    if multiset(b) == multiset(c) {
      SortIsSorted(lessEq, LeafNodes(b));
      SortIsSorted(lessEq, LeafNodes(c));
      hide TotalOrder, SortedBy;
      SortedListingIsUnique(lessEq, Sort(lessEq, LeafNodes(b)), Sort(lessEq, LeafNodes(c)));
    }
  }

  lemma GrowthIsHidden<D(!new)>(lessEq: Order<D>, a: seq<D>, b: seq<D>, g: D)
    requires TotalOrder(lessEq) && Greatest(lessEq, a, g) && |a| < |b|
    ensures HiddenGrowth(lessEq, a, b) <==>
            multiset(b) == multiset(a + Copies(g, |b| - |a|)) && |b| <= Reach(|a|, multiset(a)[g])
  {
    forall h | Greatest(lessEq, a, h)
      ensures h == g
    {
      OneGreatest(lessEq, a, g, h);
    }
    hide TotalOrder, Greatest, Copies, Reach;
  }

  lemma RootOfSome<D(!new)>(lessEq: Order<D>, a: seq<D>, b: seq<D>) returns (g: D)
    requires TotalOrder(lessEq) && 0 < |a| <= |b|
    ensures Greatest(lessEq, a, g)
    ensures SetRoot(lessEq, a) == SetRoot(lessEq, b) <==>
            multiset(b) == multiset(a + Copies(g, |b| - |a|)) && |b| <= Reach(|a|, multiset(a)[g])
  {
    hide TotalOrder, SortedBy, Contiguous, AllAt, EndsIn, SetRoot, Top, LeafNodes, Sort, Copies, Greatest, Reach,
         GrownWithin;
    g := LastIsGreatest(lessEq, a);
    SortedLeaves(lessEq, a);
    SortedLeaves(lessEq, b);
    TopIsExact(Sort(lessEq, LeafNodes(a)), Sort(lessEq, LeafNodes(b)), multiset(a)[g], 0);
    GrownByCopies(Sort(lessEq, LeafNodes(a)), Sort(lessEq, LeafNodes(b)), multiset(a)[g]);
    GrownLeaves(lessEq, a, b, g);
  }

  lemma SortedLeaves<D(!new)>(lessEq: Order<D>, a: seq<D>)
    requires TotalOrder(lessEq) && a != []
    ensures Contiguous(Sort(lessEq, LeafNodes(a))) && AllAt(Sort(lessEq, LeafNodes(a)), 0)
    ensures |LeafNodes(a)| == |a| && SetRoot(lessEq, a) == Top(Sort(lessEq, LeafNodes(a)))
  {
    SortIsSorted(lessEq, LeafNodes(a));
    SortedIsContiguous(lessEq, Sort(lessEq, LeafNodes(a)));
    SortedAreLeaves(lessEq, a);
  }

  lemma RootOfShorter<D(!new)>(lessEq: Order<D>, a: seq<D>, b: seq<D>)
    requires TotalOrder(lessEq) && |a| <= |b|
    ensures SetRoot(lessEq, a) == SetRoot(lessEq, b) <==> multiset(a) == multiset(b) || HiddenGrowth(lessEq, a, b)
  {
    assert |multiset(a)| == |a| && |multiset(b)| == |b|;
    if a == [] {
      if b != [] {
        SortedAreLeaves(lessEq, b);
        TopIsNoEmptySet(Sort(lessEq, LeafNodes(b)));
      }
    } else {
      var g := RootOfSome(lessEq, a, b);
      ReachesItself(|a|, multiset(a)[g]);
      if |a| < |b| {
        GrowthIsHidden(lessEq, a, b, g);
      } else {
        assert a + Copies(g, 0) == a;
      }
      hide *;
    }
  }

  lemma SortedAreLeaves<D>(lessEq: Order<D>, a: seq<D>)
    ensures forall i :: 0 <= i < |a| ==> Sort(lessEq, LeafNodes(a))[i].Leaf?
  {
    var s := Sort(lessEq, LeafNodes(a));
    forall i | 0 <= i < |s|
      ensures s[i].Leaf?
    {
      assert s[i] in multiset(LeafNodes(a));
    }
  }

  lemma {:induction false} TopIsNoEmptySet<D>(s: seq<Digest<D>>)
    requires s != [] && forall i :: 0 <= i < |s| ==> !s[i].EmptySet?
    ensures !Top(s).EmptySet?
    decreases |s|
  {
    if |s| > 1 {
      TopIsNoEmptySet(PairUp(s));
    }
  }

  /** The root commits to the leaves with their repeats, except that it does not show more
      copies of the greatest leaf as long as they are within reach: two lists have one root
      exactly when they are permutations, or one is the other with such copies. */
  lemma RootIsExact<D(!new)>(lessEq: Order<D>, a: seq<D>, b: seq<D>)
    requires TotalOrder(lessEq)
    ensures SetRoot(lessEq, a) == SetRoot(lessEq, b) <==>
            multiset(a) == multiset(b) || HiddenGrowth(lessEq, a, b) || HiddenGrowth(lessEq, b, a)
  {
    hide TotalOrder, SetRoot;
    if |a| <= |b| {
      RootOfShorter(lessEq, a, b);
    } else {
      RootOfShorter(lessEq, b, a);
    }
  }

  // ------------------------------------------------------------------- corollaries

  /** For lists of one length, equal roots mean permuted lists, repeats included. */
  lemma RootAndLengthCommit<D(!new)>(lessEq: Order<D>, a: seq<D>, b: seq<D>)
    requires TotalOrder(lessEq) && |a| == |b|
    ensures SetRoot(lessEq, a) == SetRoot(lessEq, b) <==> multiset(a) == multiset(b)
  {
    RootIsExact(lessEq, a, b);
    hide SetRoot, TotalOrder;
  }

  ghost predicate NoRepeats<D>(s: seq<D>) {
    forall i, j :: 0 <= i < j < |s| ==> s[i] != s[j]
  }

  lemma {:induction false} CountWithoutRepeats<D>(s: seq<D>, x: D)
    requires NoRepeats(s)
    ensures multiset(s)[x] == if x in s then 1 else 0
  {
    if s != [] {
      CountWithoutRepeats(s[1..], x);
      assert s == [s[0]] + s[1..];
    }
  }

  lemma GrowthRepeats<D(!new)>(lessEq: Order<D>, a: seq<D>, b: seq<D>)
    requires HiddenGrowth(lessEq, a, b)
    ensures !NoRepeats(b)
  {
    var g :| Greatest(lessEq, a, g) && multiset(b) == multiset(a + Copies(g, |b| - |a|));
    CopiesCount(g, |b| - |a|);
    assert multiset(b)[g] == multiset(a)[g] + (|b| - |a|) >= 2;
    if NoRepeats(b) {
      CountWithoutRepeats(b, g);
    }
  }

  /** For lists without repeats the root alone is a commitment to the set, whatever the
      two lengths are and although odd nodes are paired with themselves. */
  lemma RootCommitsToSet<D(!new)>(lessEq: Order<D>, a: seq<D>, b: seq<D>)
    requires TotalOrder(lessEq) && NoRepeats(a) && NoRepeats(b)
    ensures SetRoot(lessEq, a) == SetRoot(lessEq, b) <==> multiset(a) == multiset(b)
  {
    RootIsExact(lessEq, a, b);
    hide SetRoot, TotalOrder, NoRepeats;
    if HiddenGrowth(lessEq, a, b) {
      GrowthRepeats(lessEq, a, b);
    }
    if HiddenGrowth(lessEq, b, a) {
      GrowthRepeats(lessEq, b, a);
    }
  }

  /** Every list of odd length above one has the root of the list with its greatest leaf
      once more. */
  lemma RepeatedGreatestIsInvisible<D(!new)>(lessEq: Order<D>, a: seq<D>, g: D)
    requires TotalOrder(lessEq) && |a| > 1 && |a| % 2 == 1 && Greatest(lessEq, a, g)
    ensures SetRoot(lessEq, a) == SetRoot(lessEq, a + [g])
    ensures multiset(a) != multiset(a + [g])
  {
    ReachesItself(|a|, multiset(a)[g]);
    assert a + Copies(g, 1) == a + [g];
    assert |multiset(a)| == |a| && |multiset(a + [g])| == |a| + 1;
    RootIsExact(lessEq, a, a + [g]);
    hide TotalOrder, SetRoot, Greatest;
  }

  /** Five leaves whose greatest stands once have the root of the lists with one, two or three
      more copies of it, and of no longer one: two colliding lists may differ by several leaves. */
  lemma FiveLeavesHideThree<D(!new)>(lessEq: Order<D>, a: seq<D>, g: D, d: nat)
    requires TotalOrder(lessEq) && |a| == 5 && Greatest(lessEq, a, g) && multiset(a)[g] == 1
    ensures SetRoot(lessEq, a) == SetRoot(lessEq, a + Copies(g, d)) <==> d <= 3
  {
    var b := a + Copies(g, d);
    assert Reach(2, 1) == 2 && Reach(3, 1) == 4;
    assert Reach(5, 1) == 8;
    RootOfShorter(lessEq, a, b);
    if d == 0 {
      assert b == a;
    } else {
      assert |multiset(a)| == |a| && |multiset(b)| == |b|;
      GrowthIsHidden(lessEq, a, b, g);
      hide *;
    }
  }
}
