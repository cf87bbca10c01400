/**
 What a consistency path proves.  The repository only rebuilds the step from two leaves
 to three by hand; the reference used here is the verifier of section 2.1.4.2 of
 RFC 9162, which climbs from the old tree's last leaf and rebuilds both roots.
 */
module ConsistencyVerifier {
  import opened HistoryTree
  import opened InclusionVerifier

  // ------------------------------------------- the generated path, level by level

  ghost function LevelConsistencyPath(d: seq<Digest>, m: nat): seq<Digest>
    requires 0 < m <= |d|
    decreases |d|
  {
    if m % 2 == 1 then [d[m - 1]] + LevelPath(d, m - 1)
    else LevelConsistencyPath(Pairs(d), m / 2)
  }

  /** Two audit paths, or two proofs, that end in the same root of the other part. */
  lemma SameEnd(front: Digest, proof: seq<Digest>, path: seq<Digest>, root: Digest)
    requires proof == [front] + path
    ensures proof + [root] == [front] + (path + [root])
  {
  }

  lemma SubProofLeft(d: seq<Digest>, m: nat, left: seq<Digest>, right: seq<Digest>)
    requires Parts(d, left, right) && 0 < m <= |left|
    ensures SubProof(d, m, false) == SubProof(left, m, false) + [Root(right)]
  {
    hide Root;
  }

  lemma SubProofRight(d: seq<Digest>, m: nat, left: seq<Digest>, right: seq<Digest>)
    requires Parts(d, left, right) && 0 < m < |right|
    ensures SubProof(d, |left| + m, false) == SubProof(right, m, false) + [Root(left)]
  {
    hide Root;
    assert |left| + m - Split(|d|) == m;
  }

  lemma OddSizeOfTwo(d: seq<Digest>)
    requires |d| == 2
    ensures SubProof(d, 1, false) == [d[0]] + InclusionPath(d, 0)
  {
    assert d[..1] == [d[0]] && d[1..] == [d[1]];
    assert SubProof(d[..1], 1, false) == [d[0]];
  }

  /** The proof of an odd part of the tree is its last leaf and that leaf's audit path. */
  ghost predicate OddSize(d: seq<Digest>, i: nat)
    requires i < |d|
  {
    SubProof(d, i + 1, false) == [d[i]] + InclusionPath(d, i)
  }

  lemma OddSizeLeft(d: seq<Digest>, i: nat, left: seq<Digest>, right: seq<Digest>)
    requires Parts(d, left, right) && i < |left| && OddSize(left, i)
    ensures |left| < |d| && OddSize(d, i)
  {
    SubProofLeft(d, i + 1, left, right);
    PathInLeft(d, left, right, i);
    assert d[i] == left[i];
    hide SubProof, InclusionPath, Split, Root, Parts;
    SameEnd(d[i], SubProof(left, i + 1, false), InclusionPath(left, i), Root(right));
  }

  lemma OddSizeRight(d: seq<Digest>, i: nat, left: seq<Digest>, right: seq<Digest>)
    requires Parts(d, left, right) && i + 1 < |right| && OddSize(right, i)
    ensures |d| == |left| + |right| && OddSize(d, |left| + i)
  {
    SubProofRight(d, i + 1, left, right);
    PathInRight(d, left, right, |left| + i, i);
    assert d[|left| + i] == right[i];
    hide SubProof, InclusionPath, Split, Root, Parts;
    assert |left| + (i + 1) == (|left| + i) + 1;
    SameEnd(right[i], SubProof(right, i + 1, false), InclusionPath(right, i), Root(left));
  }

  lemma {:induction false} SubProofOfOddSize(d: seq<Digest>, i: nat)
    requires i % 2 == 0 && (i + 1 < |d| || (i + 1 == |d| && IsPowerOfTwo(|d|)))
    ensures OddSize(d, i)
    decreases |d|
  {
    if |d| == 2 {
      OddSizeOfTwo(d);
    } else if |d| > 2 {
      var left, right := EvenParts(d);
      assert i + 1 != |d|;
      hide *;
      if i < |left| {
        SubProofOfOddSize(left, i);
        OddSizeLeft(d, i, left, right);
      } else {
        SubProofOfOddSize(right, i - |left|);
        OddSizeRight(d, i - |left|, left, right);
        assert |left| + (i - |left|) == i;
      }
    }
  }

  /** A tree of more than two leaves has an even left part, and its pairs have the parts' pairs. */
  lemma EvenParts(d: seq<Digest>) returns (left: seq<Digest>, right: seq<Digest>)
    requires |d| > 2
    ensures Parts(d, left, right) && Parts(Pairs(d), Pairs(left), Pairs(right))
    ensures |d| == |left| + |right| && |left| == 2 * |Pairs(left)| && 0 < |left| < |d| && IsPowerOfTwo(|left|)
  {
    SplitIsPowerOfTwo(|d|);
    left, right := d[..Split(|d|)], d[Split(|d|)..];
    PairsOfBoth(d, left, right);
    hide Pairs, Root, Parts;
  }

  /** The proof of an even part of the tree is that of half the part one level up. */
  ghost predicate EvenSize(d: seq<Digest>, m: nat, h: nat)
    requires 0 < m == 2 * h <= |d|
  {
    SubProof(d, m, false) == SubProof(Pairs(d), h, false)
  }

  lemma EvenSizeLeft(d: seq<Digest>, m: nat, h: nat, left: seq<Digest>, right: seq<Digest>)
    requires Parts(d, left, right) && Parts(Pairs(d), Pairs(left), Pairs(right))
    requires 0 < m == 2 * h <= |left| < |d| && h <= |Pairs(left)| && EvenSize(left, m, h) && 0 < |right|
    ensures EvenSize(d, m, h)
  {
    SubProofLeft(d, m, left, right);
    SubProofLeft(Pairs(d), h, Pairs(left), Pairs(right));
    RootOfPairs(right);
    hide SubProof, Root, Pairs, Split, Parts;
  }

  lemma EvenSizeRight(d: seq<Digest>, m: nat, h: nat, left: seq<Digest>, right: seq<Digest>)
    requires Parts(d, left, right) && Parts(Pairs(d), Pairs(left), Pairs(right))
    requires |d| == |left| + |right| && 0 < |left| == 2 * |Pairs(left)|
    requires 0 < m == 2 * h < |right| && h < |Pairs(right)| && EvenSize(right, m, h)
    ensures EvenSize(d, |left| + m, |Pairs(left)| + h)
  {
    hide SubProof, Root, Pairs, Split, Parts;
    SubProofRight(d, m, left, right);
    SubProofRight(Pairs(d), h, Pairs(left), Pairs(right));
    RootOfPairs(left);
  }

  lemma {:induction false} SubProofOfEvenSize(d: seq<Digest>, m: nat, h: nat)
    requires 0 < m == 2 * h && (m < |d| || (m == |d| && IsPowerOfTwo(|d|)))
    ensures EvenSize(d, m, h)
    decreases |d|
  {
    if m == |d| {
      RootOfPairs(d);
    } else {
      var left, right := EvenParts(d);
      assert |Pairs(right)| == (|right| + 1) / 2;
      hide *;
      if h <= |Pairs(left)| {
        SubProofOfEvenSize(left, m, h);
        EvenSizeLeft(d, m, h, left, right);
      } else {
        SubProofOfEvenSize(right, m - |left|, h - |Pairs(left)|);
        EvenSizeRight(d, m - |left|, h - |Pairs(left)|, left, right);
        assert |left| + (m - |left|) == m && |Pairs(left)| + (h - |Pairs(left)|) == h;
      }
    }
  }

  lemma OddLevelPath(d: seq<Digest>, i: nat)
    requires i % 2 == 0 && i < |d|
    ensures LevelConsistencyPath(d, i + 1) == [d[i]] + LevelPath(d, i)
  {
    hide LevelPath, Pairs;
    assert (i + 1) % 2 == 1;
  }

  lemma OddIsLevelPath(d: seq<Digest>, i: nat)
    requires i % 2 == 0 && (i + 1 < |d| || (i + 1 == |d| && IsPowerOfTwo(|d|)))
    ensures SubProof(d, i + 1, false) == LevelConsistencyPath(d, i + 1)
  {
    SubProofOfOddSize(d, i);
    PathIsLevelPath(d, i);
    OddLevelPath(d, i);
    hide SubProof, InclusionPath, LevelPath, LevelConsistencyPath, IsPowerOfTwo;
  }

  lemma EvenLevelPath(d: seq<Digest>, m: nat, h: nat)
    requires 0 < m == 2 * h <= |d|
    ensures |Pairs(d)| < |d| && h <= |Pairs(d)| && LevelConsistencyPath(d, m) == LevelConsistencyPath(Pairs(d), h)
    ensures m < |d| ==> h < |Pairs(d)|
    ensures m == |d| && IsPowerOfTwo(|d|) ==> IsPowerOfTwo(|Pairs(d)|)
  {
    hide LevelPath;
    assert m / 2 == h;
  }

  lemma {:induction false} SubProofIsLevelPath(d: seq<Digest>, m: nat)
    requires 0 < m <= |d| && (m < |d| || IsPowerOfTwo(|d|))
    ensures SubProof(d, m, false) == LevelConsistencyPath(d, m)
    decreases |d|
  {
    if m % 2 == 1 {
      hide *;
      OddIsLevelPath(d, m - 1);
    } else {
      var h := m / 2;
      SubProofOfEvenSize(d, m, h);
      EvenLevelPath(d, m, h);
      hide SubProof, LevelConsistencyPath, Pairs, IsPowerOfTwo;
      SubProofIsLevelPath(Pairs(d), h);
    }
  }

  // -------------------------------------------------- the verifier of RFC 9162

  datatype Rebuilt = Rebuilt(complete: bool, oldRoot: Digest, newRoot: Digest)

  /** Step 5 of section 2.1.4.2 of RFC 9162, with the check of step 6 on `sn`. */
  function ClimbBoth(fr: Digest, sr: Digest, fn: nat, sn: nat, path: seq<Digest>): Rebuilt
    decreases |path|
  {
    if path == [] then Rebuilt(sn == 0, fr, sr)
    else if sn == 0 then Rebuilt(false, fr, sr)
    else if fn % 2 == 1 || fn == sn then
      var (f, s) := SkipPromotionsNat(fn, sn);
      ClimbBoth(Node(path[0], fr), Node(path[0], sr), f / 2, s / 2, path[1..])
    else
      ClimbBoth(fr, Node(sr, path[0]), fn / 2, sn / 2, path[1..])
  }

  /** Step 3: both numbers are shifted while `fn` is odd. */
  function SkipFullParts(fn: nat, sn: nat): (nat, nat) {
    if fn % 2 == 1 then SkipFullParts(fn / 2, sn / 2) else (fn, sn)
  }

  /** Steps 2 to 6: the path is complete, its first digest belongs to the old tree. */
  predicate AcceptsWithSeed(m: nat, oldRoot: Digest, n: nat, newRoot: Digest, path: seq<Digest>)
    requires 0 < m <= n
  {
    path != [] &&
    var (fn, sn) := SkipFullParts(m - 1, n - 1);
    ClimbBoth(path[0], path[0], fn, sn, path[1..]) == Rebuilt(true, oldRoot, newRoot)
  }

  /** The whole verifier; step 1 puts the old root in front when the old tree is full. */
  predicate RfcConsistent(m: nat, oldRoot: Digest, n: nat, newRoot: Digest, path: seq<Digest>)
    requires 0 < m <= n
  {
    AcceptsWithSeed(m, oldRoot, n, newRoot, if IsPowerOfTwo(m) then [oldRoot] + path else path)
  }

  // ---------------------------------------------------------------- exactness

  lemma ClimbBothByLevel(fr: Digest, sr: Digest, d: seq<Digest>, fn: nat, path: seq<Digest>)
    requires fn < |d| && |d| >= 2
    ensures Sibling(d, fn) == [] ==>
              ClimbBoth(fr, sr, fn, |d| - 1, path) == ClimbBoth(fr, sr, fn / 2, |Pairs(d)| - 1, path)
    ensures Sibling(d, fn) != [] && path == [] ==> !ClimbBoth(fr, sr, fn, |d| - 1, path).complete
    ensures fn % 2 == 1 && path != [] ==>
              ClimbBoth(fr, sr, fn, |d| - 1, path) ==
              ClimbBoth(Node(path[0], fr), Node(path[0], sr), fn / 2, |Pairs(d)| - 1, path[1..])
    ensures fn % 2 == 0 && Sibling(d, fn) != [] && path != [] ==>
              ClimbBoth(fr, sr, fn, |d| - 1, path) ==
              ClimbBoth(fr, Node(sr, path[0]), fn / 2, |Pairs(d)| - 1, path[1..])
  {
  }

  /** Pairing loses nothing of an even prefix. */
  lemma PairsOfEvenPrefix(e: seq<Digest>, d: seq<Digest>, m: nat)
    requires m % 2 == 0 && m <= |e| && m <= |d|
    ensures Pairs(e)[..m / 2] == Pairs(d)[..m / 2] <==> e[..m] == d[..m]
  {
    if Pairs(e)[..m / 2] == Pairs(d)[..m / 2] {
      forall i | 0 <= i < m
        ensures e[i] == d[i]
      {
        assert Pairs(e)[..m / 2][i / 2] == Pairs(d)[..m / 2][i / 2];
        assert Pairs(e)[i / 2] == Node(e[2 * (i / 2)], e[2 * (i / 2) + 1]);
        assert Pairs(d)[i / 2] == Node(d[2 * (i / 2)], d[2 * (i / 2) + 1]);
      }
    } else if e[..m] == d[..m] {
      PairsOfParts(e, m / 2);
      PairsOfParts(d, m / 2);
    }
  }

  /** The situation inside the climb: `e` is the old level up to its last digest `fn`,
      `d` the new level, and the rest of the path must be the new leaf's audit path. */
  ghost predicate Matches(fr: Digest, sr: Digest, e: seq<Digest>, d: seq<Digest>, path: seq<Digest>)
    requires 0 < |e| <= |d|
  {
    var fn := |e| - 1;
    fr == e[fn] && sr == d[fn] && e[..fn] == d[..fn] && path == LevelPath(d, fn)
  }

  /** The climb reaches both roots from the matching situation and from no other. */
  ghost predicate ClimbsOnlyFromBoth(fr: Digest, sr: Digest, e: seq<Digest>, d: seq<Digest>, path: seq<Digest>)
    requires 0 < |e| <= |d|
  {
    ClimbBoth(fr, sr, |e| - 1, |d| - 1, path) == Rebuilt(true, LevelRoot(e), LevelRoot(d))
    <==> Matches(fr, sr, e, d, path)
  }

  lemma LevelRootStep(e: seq<Digest>)
    requires |e| > 0
    ensures LevelRoot(e) == LevelRoot(Pairs(e))
  {
    if |e| == 1 {
      assert Pairs(e) == e;
    }
  }

  /** A last digest of the old tree that is promoted does not change what matches. */
  lemma MatchesWhenPromoted(fr: Digest, sr: Digest, e: seq<Digest>, d: seq<Digest>, path: seq<Digest>)
    requires 0 < |e| <= |d| && |d| >= 2 && Sibling(d, |e| - 1) == []
    ensures Matches(fr, sr, e, d, path) <==> Matches(fr, sr, Pairs(e), Pairs(d), path)
  {
    PairsOfEvenPrefix(e, d, |e| - 1);
    assert |Pairs(e)| - 1 == (|e| - 1) / 2;
  }

  lemma PairAt(d: seq<Digest>, h: nat)
    requires 2 * h + 1 < |d|
    ensures h < |Pairs(d)| && Pairs(d)[h] == Node(d[2 * h], d[2 * h + 1])
  {
  }

  lemma LeftNeighbour(d: seq<Digest>, h: nat)
    requires 2 * h + 1 < |d|
    ensures h < |Pairs(d)| && LevelPath(d, 2 * h + 1) == [d[2 * h]] + LevelPath(Pairs(d), h)
  {
    hide Pairs;
    assert (2 * h + 1) / 2 == h && (2 * h + 1) % 2 == 1;
    assert Sibling(d, 2 * h + 1) == [d[2 * h]];
  }

  lemma OneMoreInCommon(e: seq<Digest>, d: seq<Digest>, k: nat)
    requires k < |e| && k < |d|
    ensures e[..k + 1] == d[..k + 1] <==> e[..k] == d[..k] && e[k] == d[k]
  {
    assert e[..k + 1] == e[..k] + [e[k]] && d[..k + 1] == d[..k] + [d[k]];
  }

  /** A left neighbour of the old tree's last digest joins both trees. */
  lemma MatchesWithLeft(fr: Digest, sr: Digest, e: seq<Digest>, d: seq<Digest>, path: seq<Digest>)
    requires 0 < |e| <= |d| && |d| >= 2 && |e| % 2 == 0 && path != []
    ensures Matches(fr, sr, e, d, path) <==>
            Matches(Node(path[0], fr), Node(path[0], sr), Pairs(e), Pairs(d), path[1..])
  {
    hide Pairs, LevelPath;
    var h := |e| / 2 - 1;
    assert |e| - 1 == 2 * h + 1 && |Pairs(e)| - 1 == h;
    PairAt(e, h);
    PairAt(d, h);
    LeftNeighbour(d, h);
    PairsOfEvenPrefix(e, d, 2 * h);
    OneMoreInCommon(e, d, 2 * h);
    PathStartsWith(path, [d[2 * h]], LevelPath(Pairs(d), h));
  }

  /** A right neighbour of the old tree's last digest joins only the new tree. */
  lemma MatchesWithRight(fr: Digest, sr: Digest, e: seq<Digest>, d: seq<Digest>, path: seq<Digest>)
    requires 0 < |e| < |d| && |e| % 2 == 1 && path != []
    ensures Matches(fr, sr, e, d, path) <==> Matches(fr, Node(sr, path[0]), Pairs(e), Pairs(d), path[1..])
  {
    var fn := |e| - 1;
    assert |Pairs(e)| - 1 == fn / 2;
    PathStartsWith(path, Sibling(d, fn), LevelPath(Pairs(d), fn / 2));
    PairsOfEvenPrefix(e, d, fn);
  }

  lemma MatchesNeedsPath(fr: Digest, sr: Digest, e: seq<Digest>, d: seq<Digest>)
    requires 0 < |e| <= |d| && |d| >= 2 && Sibling(d, |e| - 1) != []
    ensures !Matches(fr, sr, e, d, [])
  {
  }

  lemma OnlyOneLeft(fr: Digest, sr: Digest, e: seq<Digest>, d: seq<Digest>, path: seq<Digest>)
    requires |e| == |d| == 1
    ensures ClimbsOnlyFromBoth(fr, sr, e, d, path)
  {
    assert e[..0] == d[..0];
  }

  lemma {:induction false} ClimbBothIsExact(fr: Digest, sr: Digest, e: seq<Digest>, d: seq<Digest>, path: seq<Digest>)
    requires 0 < |e| <= |d|
    ensures ClimbsOnlyFromBoth(fr, sr, e, d, path)
    decreases |d|
  {
    hide Matches, ClimbBoth, LevelRoot;
    if |d| == 1 {
      OnlyOneLeft(fr, sr, e, d, path);
    } else {
      LevelRootStep(e);
      LevelRootStep(d);
      assert |Pairs(e)| - 1 == (|e| - 1) / 2;
      ClimbBothByLevel(fr, sr, d, |e| - 1, path);
      if Sibling(d, |e| - 1) == [] {
        ClimbBothIsExact(fr, sr, Pairs(e), Pairs(d), path);
        MatchesWhenPromoted(fr, sr, e, d, path);
      } else if path == [] {
        MatchesNeedsPath(fr, sr, e, d);
      } else if |e| % 2 == 0 {
        ClimbBothIsExact(Node(path[0], fr), Node(path[0], sr), Pairs(e), Pairs(d), path[1..]);
        MatchesWithLeft(fr, sr, e, d, path);
      } else {
        ClimbBothIsExact(fr, Node(sr, path[0]), Pairs(e), Pairs(d), path[1..]);
        MatchesWithRight(fr, sr, e, d, path);
      }
    }
  }

  /** The exactness of the verifier on one level. */
  ghost predicate AcceptsOnlyPrefixes(e: seq<Digest>, d: seq<Digest>, path: seq<Digest>)
    requires 0 < |e| <= |d|
  {
    AcceptsWithSeed(|e|, LevelRoot(e), |d|, LevelRoot(d), path)
    <==> e == d[..|e|] && path == LevelConsistencyPath(d, |e|)
  }

  /** An old level of odd length: the path starts with its last digest. */
  lemma OddLevel(e: seq<Digest>, d: seq<Digest>, path: seq<Digest>)
    requires 0 < |e| <= |d| && |e| % 2 == 1
    ensures AcceptsOnlyPrefixes(e, d, path)
  {
    hide ClimbBoth, LevelRoot, LevelPath;
    var m := |e|;
    assert SkipFullParts(m - 1, |d| - 1) == (m - 1, |d| - 1);
    if path != [] {
      ClimbBothIsExact(path[0], path[0], e, d, path[1..]);
      PathStartsWith(path, [d[m - 1]], LevelPath(d, m - 1));
      assert e[..m] == e;
      OneMoreInCommon(e, d, m - 1);
    }
  }

  /** One of even length: nothing on this level is of interest. */
  lemma EvenLevel(e: seq<Digest>, d: seq<Digest>, path: seq<Digest>)
    requires 0 < |e| <= |d| && |e| % 2 == 0
    requires AcceptsOnlyPrefixes(Pairs(e), Pairs(d), path)
    ensures AcceptsOnlyPrefixes(e, d, path)
  {
    var m := |e|;
    LevelRootStep(e);
    LevelRootStep(d);
    PairsOfEvenPrefix(e, d, m);
    hide ClimbBoth, LevelRoot, Pairs;
    assert (m - 1) / 2 == m / 2 - 1 && (|d| - 1) / 2 == |Pairs(d)| - 1;
    assert SkipFullParts(m - 1, |d| - 1) == SkipFullParts(|Pairs(e)| - 1, |Pairs(d)| - 1);
    assert e[..m] == e && Pairs(e)[..m / 2] == Pairs(e);
  }

  lemma {:induction false} LevelConsistencyIsExact(e: seq<Digest>, d: seq<Digest>, path: seq<Digest>)
    requires 0 < |e| <= |d|
    ensures AcceptsOnlyPrefixes(e, d, path)
    decreases |d|
  {
    if |e| % 2 == 1 {
      OddLevel(e, d, path);
    } else {
      LevelConsistencyIsExact(Pairs(e), Pairs(d), path);
      EvenLevel(e, d, path);
    }
  }

  /** A generated path rebuilds both roots, and nothing else does: an accepted path
      proves that the old tree's leaves are the first leaves of the new tree. */
  lemma ConsistencyIsExact(e: seq<Digest>, d: seq<Digest>, path: seq<Digest>)
    requires 0 < |e| < |d|
    ensures AcceptsWithSeed(|e|, Root(e), |d|, Root(d), path)
            <==> e == d[..|e|] && path == ConsistencyPath(d, |e|)
  {
    RootIsLevelRoot(e);
    RootIsLevelRoot(d);
    SubProofTopFlag(d, |e|);
    SubProofIsLevelPath(d, |e|);
    LevelConsistencyIsExact(e, d, path);
  }

  /** The standard's own path is the one its verifier accepts. */
  lemma RfcProofIsExact(e: seq<Digest>, d: seq<Digest>, path: seq<Digest>)
    requires 0 < |e| < |d|
    ensures RfcConsistent(|e|, Root(e), |d|, Root(d), path)
            <==> e == d[..|e|] && path == RfcSubProof(d, |e|, true)
  {
    var m := |e|;
    ConsistencyPathVersusRfc(d, m);
    if IsPowerOfTwo(m) {
      ConsistencyIsExact(e, d, [Root(e)] + path);
      PathStartsWith([Root(e)] + path, [Root(d[..m])], RfcSubProof(d, m, true));
      assert ([Root(e)] + path)[1..] == path;
    } else {
      ConsistencyIsExact(e, d, path);
    }
  }

  /** A generated path handed to the standard's verifier as it is passes exactly when
      the old size is not a power of two. */
  lemma GeneratedPathPassesRfcVerifier(d: seq<Digest>, m: nat)
    requires 0 < m < |d|
    ensures RfcConsistent(m, Root(d[..m]), |d|, Root(d), ConsistencyPath(d, m)) <==> !IsPowerOfTwo(m)
  {
    RfcProofIsExact(d[..m], d, ConsistencyPath(d, m));
    ConsistencyPathVersusRfc(d, m);
    if IsPowerOfTwo(m) {
      assert |ConsistencyPath(d, m)| == 1 + |RfcSubProof(d, m, true)|;
    }
  }

  /** The step the validator rebuilds by hand: from two leaves to three the path is the
      old root and the third leaf, and hashing them gives the new root. */
  lemma TwoToThree(a: Digest, b: Digest, c: Digest)
    ensures ConsistencyPath([a, b, c], 2) == [Root([a, b]), c]
    ensures Node(Root([a, b]), c) == Root([a, b, c])
  {
    var d := [a, b, c];
    assert Split(3) == 2;
    assert d[..2] == [a, b] && d[2..] == [c];
    assert SubProof([a, b], 2, false) == [Root([a, b])];
  }
}
