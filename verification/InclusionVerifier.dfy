/**
 The vector validator's inclusion check: a loop that climbs the tree from a leaf by
 shifting the leaf number `fn` and the last number `sn`.  It shares no code with the
 recursion that makes the paths; this module proves that the two agree.
 */
module InclusionVerifier {
  import opened HistoryTree

  function Magnitude(x: int): nat {
    if x < 0 then -x else x
  }

  /** The inner loop: both numbers are shifted until `fn` is odd or zero. */
  function SkipPromotions(fn: int, sn: int): (r: (int, int))
    decreases Magnitude(fn)
  {
    if fn % 2 == 0 && fn != 0 then SkipPromotions(fn / 2, sn / 2) else (fn, sn)
  }

  /** What the outer loop computes from digest `r` and the rest of the path. */
  function Climb(r: Digest, fn: int, sn: int, path: seq<Digest>): Digest
    decreases |path|
  {
    if path == [] then r
    else if fn % 2 == 1 || fn == sn then
      var (f, s) := SkipPromotions(fn, sn);
      Climb(Node(path[0], r), f / 2, s / 2, path[1..])
    else
      Climb(Node(r, path[0]), fn / 2, sn / 2, path[1..])
  }

  method InclusionRoot(leaf: Digest, index: int, size: int, path: seq<Digest>) returns (r: Digest)
    ensures r == Climb(leaf, index, size - 1, path)
  {
    var fn, sn := index, size - 1;
    r := leaf;
    for i := 0 to |path|
      invariant Climb(r, fn, sn, path[i..]) == Climb(leaf, index, size - 1, path)
    {
      var p := path[i];
      assert path[i..][0] == p && path[i..][1..] == path[i + 1..];
      if fn % 2 == 1 || fn == sn {
        r := Node(p, r);
        ghost var skipped := SkipPromotions(fn, sn);
        while fn % 2 == 0 && fn != 0
          invariant SkipPromotions(fn, sn) == skipped
          decreases Magnitude(fn)
        {
          fn := fn / 2;
          sn := sn / 2;
        }
      } else {
        r := Node(r, p);
      }
      fn := fn / 2;
      sn := sn / 2;
    }
  }

  // ------------------------------------------------ agreement with the generator

  /** A promoted digest needs no step: the climb from it is the climb from its place
      one level up. */
  lemma PromotionIsSkipped(r: Digest, fn: int, path: seq<Digest>)
    requires fn % 2 == 0 && fn != 0
    ensures Climb(r, fn, fn, path) == Climb(r, fn / 2, fn / 2, path)
  {
  }

  function Join(i: nat, x: Digest, neighbour: Digest): Digest {
    if i % 2 == 1 then Node(neighbour, x) else Node(x, neighbour)
  }

  /** One level of the climb: a leaf with a neighbour joins the first path element, a
      promoted leaf takes its place one level up without using the path. */
  lemma ClimbByLevel(x: Digest, d: seq<Digest>, i: nat, path: seq<Digest>)
    requires i < |d| && |d| >= 2
    ensures Sibling(d, i) == [] ==>
              Climb(x, i, |d| - 1, path) == Climb(x, i / 2, |Pairs(d)| - 1, path)
    ensures Sibling(d, i) != [] && path != [] ==>
              Climb(x, i, |d| - 1, path) == Climb(Join(i, x, path[0]), i / 2, |Pairs(d)| - 1, path[1..])
  {
    if Sibling(d, i) == [] {
      PromotionIsSkipped(x, i, path);
    }
  }

  lemma PairOf(d: seq<Digest>, i: nat)
    requires i < |d|
    ensures i / 2 < |Pairs(d)| && |Sibling(d, i)| <= 1
    ensures Pairs(d)[i / 2] == if Sibling(d, i) == [] then d[i] else Join(i, d[i], Sibling(d, i)[0])
  {
  }

  ghost predicate ClimbsOnlyFrom(x: Digest, d: seq<Digest>, i: nat, path: seq<Digest>)
    requires i < |d|
  {
    Climb(x, i, |d| - 1, path) == LevelRoot(d) <==> x == d[i] && path == LevelPath(d, i)
  }

  lemma {:induction false} LevelInclusionIsExact(x: Digest, d: seq<Digest>, i: nat, path: seq<Digest>)
    requires i < |d| && |path| == |LevelPath(d, i)|
    ensures ClimbsOnlyFrom(x, d, i, path)
    decreases |d|
  {
    if |d| > 1 {
      ClimbByLevel(x, d, i, path);
      PairOf(d, i);
      if Sibling(d, i) == [] {
        LevelInclusionIsExact(x, Pairs(d), i / 2, path);
      } else {
        LevelInclusionIsExact(Join(i, x, path[0]), Pairs(d), i / 2, path[1..]);
        PathStartsWith(path, Sibling(d, i), LevelPath(Pairs(d), i / 2));
      }
    }
  }

  /** Completeness and soundness at once: over a path of the length the tree dictates,
      the validator arrives at the root exactly for the right leaf and the right path. */
  lemma InclusionIsExact(x: Digest, d: seq<Digest>, i: nat, path: seq<Digest>)
    requires i < |d|
    requires |path| == |InclusionPath(d, i)|
    ensures Climb(x, i, |d| - 1, path) == Root(d) <==> x == d[i] && path == InclusionPath(d, i)
  {
    RootIsLevelRoot(d);
    PathIsLevelPath(d, i);
    LevelInclusionIsExact(x, d, i, path);
  }

  lemma PathStartsWith(path: seq<Digest>, front: seq<Digest>, rest: seq<Digest>)
    requires |front| == 1 && path != []
    ensures path == front + rest <==> path[0] == front[0] && path[1..] == rest
  {
    assert path == [path[0]] + path[1..] && front == [front[0]];
  }

  // --------------------------------------- what the omitted last check would add

  /** Section 2.1.3.2 of RFC 9162: as the loop above, but it fails when `sn` is spent
      before the path and it accepts only when `sn` is spent at the end. */
  function RfcClimb(r: Digest, fn: nat, sn: nat, path: seq<Digest>): (result: (bool, Digest))
    decreases |path|
  {
    if path == [] then (sn == 0, r)
    else if sn == 0 then (false, r)
    else if fn % 2 == 1 || fn == sn then
      var (f, s) := SkipPromotionsNat(fn, sn);
      RfcClimb(Node(path[0], r), f / 2, s / 2, path[1..])
    else
      RfcClimb(Node(r, path[0]), fn / 2, sn / 2, path[1..])
  }

  function SkipPromotionsNat(fn: nat, sn: nat): (r: (nat, nat))
    ensures r == SkipPromotions(fn, sn)
  {
    if fn % 2 == 0 && fn != 0 then SkipPromotionsNat(fn / 2, sn / 2) else (fn, sn)
  }

  predicate RfcAccepts(x: Digest, i: nat, size: nat, path: seq<Digest>, root: Digest) {
    i < size && RfcClimb(x, i, size - 1, path) == (true, root)
  }

  ghost predicate SnChecksAgree(x: Digest, d: seq<Digest>, i: nat, path: seq<Digest>)
    requires i < |d|
  {
    var (ok, r) := RfcClimb(x, i, |d| - 1, path);
    (ok <==> |path| == |LevelPath(d, i)|) && (ok ==> r == Climb(x, i, |d| - 1, path))
  }

  lemma {:induction false} LevelSnChecks(x: Digest, d: seq<Digest>, i: nat, path: seq<Digest>)
    requires i < |d|
    ensures SnChecksAgree(x, d, i, path)
    decreases |d|
  {
    if |d| > 1 {
      PairOf(d, i);
      ClimbByLevel(x, d, i, path);
      RfcClimbByLevel(x, d, i, path);
      if Sibling(d, i) == [] {
        LevelSnChecks(x, Pairs(d), i / 2, path);
      } else if path != [] {
        LevelSnChecks(Join(i, x, path[0]), Pairs(d), i / 2, path[1..]);
      }
    }
  }

  /** The RFC's two checks on `sn` say exactly that the path has the dictated length;
      the digest it computes is then the validator's. */
  lemma SnChecksAreLengthCheck(x: Digest, d: seq<Digest>, i: nat, path: seq<Digest>)
    requires i < |d|
    ensures RfcClimb(x, i, |d| - 1, path).0 <==> |path| == |InclusionPath(d, i)|
    ensures RfcClimb(x, i, |d| - 1, path).0 ==> RfcClimb(x, i, |d| - 1, path).1 == Climb(x, i, |d| - 1, path)
  {
    PathIsLevelPath(d, i);
    LevelSnChecks(x, d, i, path);
  }

  lemma RfcClimbByLevel(x: Digest, d: seq<Digest>, i: nat, path: seq<Digest>)
    requires i < |d| && |d| >= 2
    ensures Sibling(d, i) == [] ==>
              RfcClimb(x, i, |d| - 1, path) == RfcClimb(x, i / 2, |Pairs(d)| - 1, path)
    ensures Sibling(d, i) != [] && path != [] ==>
              RfcClimb(x, i, |d| - 1, path) == RfcClimb(Join(i, x, path[0]), i / 2, |Pairs(d)| - 1, path[1..])
    ensures Sibling(d, i) != [] && path == [] ==> RfcClimb(x, i, |d| - 1, path) == (false, x)
  {
  }

  /** The standard's verifier accepts the leaf at the index with the generated path and
      nothing else. */
  lemma RfcVerifierIsExact(x: Digest, d: seq<Digest>, i: nat, path: seq<Digest>)
    requires i < |d|
    ensures RfcAccepts(x, i, |d|, path, Root(d)) <==> x == d[i] && path == InclusionPath(d, i)
  {
    SnChecksAreLengthCheck(x, d, i, path);
    if |path| == |InclusionPath(d, i)| {
      InclusionIsExact(x, d, i, path);
    }
  }

  /** The validator accepts what the standard accepts, and the converse holds exactly
      when the path has the dictated length. */
  lemma ValidatorVersusRfc(x: Digest, d: seq<Digest>, i: nat, path: seq<Digest>)
    requires i < |d| && Climb(x, i, |d| - 1, path) == Root(d)
    ensures RfcAccepts(x, i, |d|, path, Root(d)) <==> |path| == |InclusionPath(d, i)|
  {
    SnChecksAreLengthCheck(x, d, i, path);
  }

  /** Without the length check an index can be claimed for another leaf: in every tree
      of three leaves, a one-element path takes the last leaf to the root as number 1. */
  lemma ShortPathMovesTheLeaf(a: Digest, b: Digest, c: Digest)
    ensures Climb(c, 1, 2, [Node(a, b)]) == Root([a, b, c])
    ensures |InclusionPath([a, b, c], 1)| == 2
  {
    var d := [a, b, c];
    assert Split(3) == 2;
    assert d[..2] == [a, b] && d[2..] == [c];
    assert d[..2][..1] == [a] && d[..2][1..] == [b];
    assert Root(d[..2]) == Node(a, b);
    assert InclusionPath(d[..2], 1) == [] + [a];
  }

  // ---------------------------------------------- membership without any length check

  function Leaves(t: Digest): set<seq<bv8>> {
    match t
    case Empty => {}
    case Leaf(data) => {data}
    case Node(l, r) => Leaves(l) + Leaves(r)
  }

  lemma {:induction false} ClimbKeepsLeaves(r: Digest, fn: int, sn: int, path: seq<Digest>)
    ensures Leaves(r) <= Leaves(Climb(r, fn, sn, path))
    decreases |path|
  {
    if path != [] {
      if fn % 2 == 1 || fn == sn {
        var (f, s) := SkipPromotions(fn, sn);
        ClimbKeepsLeaves(Node(path[0], r), f / 2, s / 2, path[1..]);
      } else {
        ClimbKeepsLeaves(Node(r, path[0]), fn / 2, sn / 2, path[1..]);
      }
    }
  }

  lemma {:induction false} LeavesOfRoot(d: seq<Digest>, data: seq<bv8>)
    requires data in Leaves(Root(d))
    ensures exists i :: 0 <= i < |d| && data in Leaves(d[i])
    decreases |d|
  {
    if |d| == 1 {
      assert data in Leaves(d[0]);
    } else if |d| > 1 {
      var k := Split(|d|);
      if data in Leaves(Root(d[..k])) {
        LeavesOfRoot(d[..k], data);
        var i :| 0 <= i < k && data in Leaves(d[..k][i]);
        assert data in Leaves(d[i]);
      } else {
        LeavesOfRoot(d[k..], data);
        var i :| 0 <= i < |d| - k && data in Leaves(d[k..][i]);
        assert data in Leaves(d[k + i]);
      }
    }
  }

  /** Whatever the index, the size and the path, the validator reaches the root of a
      tree of leaf hashes only from a leaf hash that is in the tree. */
  lemma AcceptedLeafIsInTheTree(data: seq<bv8>, index: int, size: int, path: seq<Digest>, d: seq<Digest>)
    requires forall i :: 0 <= i < |d| ==> d[i].Leaf?
    requires Climb(Leaf(data), index, size - 1, path) == Root(d)
    ensures Leaf(data) in d
  {
    ClimbKeepsLeaves(Leaf(data), index, size - 1, path);
    assert data in Leaves(Leaf(data));
    LeavesOfRoot(d, data);
    var i :| 0 <= i < |d| && data in Leaves(d[i]);
    assert d[i] == Leaf(data);
  }
}
