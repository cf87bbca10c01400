/**
 The append-only history tree of RFC 6962: its root, its inclusion paths and its
 consistency paths, as the vector generator builds them by recursion from the top.

 The hash is a free constructor: two digests are equal only when they were made
 from the same parts by the same kind of hash.  That is collision resistance
 together with the leaf (0x00) and node (0x01) prefixes.
 */
module HistoryTree {
  import opened Sequences

  datatype Digest = Empty | Leaf(data: seq<bv8>) | Node(left: Digest, right: Digest)

  predicate IsPowerOfTwo(n: nat) {
    n == 1 || (n > 0 && n % 2 == 0 && IsPowerOfTwo(n / 2))
  }

  lemma {:induction false} PowersAreSparse(a: nat, b: nat)
    requires IsPowerOfTwo(a) && IsPowerOfTwo(b) && a < b
    ensures 2 * a <= b
  {
    if a > 1 {
      PowersAreSparse(a / 2, b / 2);
    }
  }

  /** The largest power of two below `n`, by halving. */
  function Split(n: nat): (k: nat)
    requires n >= 2
    ensures 0 < k < n <= 2 * k
  {
    if n == 2 then 1 else 2 * Split((n + 1) / 2)
  }

  lemma {:induction false} SplitIsPowerOfTwo(n: nat)
    requires n >= 2
    ensures IsPowerOfTwo(Split(n))
  {
    if n > 2 {
      SplitIsPowerOfTwo((n + 1) / 2);
    }
  }

  lemma SplitIsUnique(n: nat, k: nat)
    requires n >= 2 && IsPowerOfTwo(k) && k < n <= 2 * k
    ensures k == Split(n)
  {
    var s := Split(n);
    SplitIsPowerOfTwo(n);
    if k < s {
      PowersAreSparse(k, s);
    } else if s < k {
      PowersAreSparse(s, k);
    }
  }

  /** The doubling loop that every tree recursion runs to find its split point. */
  method ComputeSplit(n: nat) returns (k: nat)
    requires n >= 2
    ensures k == Split(n)
  {
    k := 1;
    while k * 2 < n
      invariant IsPowerOfTwo(k) && k < n
      decreases n - k
    {
      k := k * 2;
    }
    SplitIsUnique(n, k);
  }

  // ---------------------------------------------------------------- roots

  ghost function Root(d: seq<Digest>): Digest {
    if |d| == 0 then Empty
    else if |d| == 1 then d[0]
    else var k := Split(|d|); Node(Root(d[..k]), Root(d[k..]))
  }

  method MerkleRoot(leaves: seq<Digest>) returns (root: Digest)
    ensures root == Root(leaves)
    decreases |leaves|
  {
    if |leaves| == 0 { return Empty; }
    if |leaves| == 1 { return leaves[0]; }
    var split := ComputeSplit(|leaves|);
    var left := MerkleRoot(leaves[..split]);
    var right := MerkleRoot(leaves[split..]);
    root := Node(left, right);
  }

  /** One level of the tree seen from below: neighbours are paired and an odd last
      digest is promoted unchanged. */
  ghost function Pairs(d: seq<Digest>): (p: seq<Digest>)
    ensures |p| == (|d| + 1) / 2
  {
    seq((|d| + 1) / 2, i requires 0 <= i < (|d| + 1) / 2 =>
      if 2 * i + 1 < |d| then Node(d[2 * i], d[2 * i + 1]) else d[2 * i])
  }

  lemma PairsOfParts(d: seq<Digest>, h: nat)
    requires 2 * h <= |d|
    ensures Pairs(d)[..h] == Pairs(d[..2 * h])
    ensures Pairs(d)[h..] == Pairs(d[2 * h..])
  {
  }

  /** Above two leaves, pairing halves the split point. */
  lemma SplitOfPairs(d: seq<Digest>) returns (h: nat)
    requires |d| > 2
    ensures |Pairs(d)| >= 2 && h == Split(|Pairs(d)|) && Split(|d|) == 2 * h
    ensures Pairs(d)[..h] == Pairs(d[..2 * h]) && Pairs(d)[h..] == Pairs(d[2 * h..])
  {
    h := Split(|Pairs(d)|);
    PairsOfParts(d, h);
  }

  /** The tree built from the top and the tree built level by level have one root. */
  lemma {:induction false} RootOfPairs(d: seq<Digest>)
    requires |d| > 0
    ensures Root(d) == Root(Pairs(d))
    decreases |d|
  {
    if |d| == 1 {
      assert Pairs(d) == d;
    } else if |d| == 2 {
      assert d[..1] == [d[0]] && d[1..] == [d[1]];
      assert Pairs(d) == [Node(d[0], d[1])];
    } else {
      var h := SplitOfPairs(d);
      RootOfPairs(d[..2 * h]);
      RootOfPairs(d[2 * h..]);
    }
  }

  /** For one size, a root determines every leaf digest. */
  lemma {:induction false} RootIsInjective(d: seq<Digest>, e: seq<Digest>)
    requires |d| == |e| && Root(d) == Root(e)
    ensures d == e
    decreases |d|
  {
    if |d| == 1 {
      assert d == [d[0]] && e == [e[0]];
    } else if |d| > 1 {
      var k := Split(|d|);
      RootIsInjective(d[..k], e[..k]);
      RootIsInjective(d[k..], e[k..]);
      assert d == d[..k] + d[k..] && e == e[..k] + e[k..];
    }
  }

  // ------------------------------------------------------ inclusion paths

  /** The audit path for leaf `i`, nearest sibling first.  Like the generator it
      answers for any integer: an index outside the tree follows the nearest edge. */
  ghost function InclusionPath(d: seq<Digest>, i: int): seq<Digest>
    decreases |d|
  {
    if |d| <= 1 then []
    else
      var k := Split(|d|);
      if i < k then InclusionPath(d[..k], i) + [Root(d[k..])]
      else InclusionPath(d[k..], i - k) + [Root(d[..k])]
  }

  method MerkleInclusionProof(leaves: seq<Digest>, index: int) returns (path: seq<Digest>)
    ensures path == InclusionPath(leaves, index)
    decreases |leaves|
  {
    if |leaves| <= 1 { return []; }
    var split := ComputeSplit(|leaves|);
    if index < split {
      var rest := MerkleInclusionProof(leaves[..split], index);
      var sibling := MerkleRoot(leaves[split..]);
      path := rest + [sibling];
    } else {
      var rest := MerkleInclusionProof(leaves[split..], index - split);
      var sibling := MerkleRoot(leaves[..split]);
      path := rest + [sibling];
    }
  }

  /** The neighbour a digest is paired with on its own level, if it has one. */
  ghost function Sibling(d: seq<Digest>, i: nat): seq<Digest>
    requires i < |d|
  {
    if i % 2 == 1 then [d[i - 1]] else if i + 1 < |d| then [d[i + 1]] else []
  }

  /** The two parts a digest list is split into. */
  ghost predicate Parts(d: seq<Digest>, left: seq<Digest>, right: seq<Digest>) {
    |d| > 1 && left == d[..Split(|d|)] && right == d[Split(|d|)..]
  }

  lemma PathInLeft(d: seq<Digest>, left: seq<Digest>, right: seq<Digest>, i: nat)
    requires Parts(d, left, right) && i < |left|
    ensures InclusionPath(d, i) == InclusionPath(left, i) + [Root(right)]
  {
    hide Root;
  }

  lemma PathInRight(d: seq<Digest>, left: seq<Digest>, right: seq<Digest>, i: nat, j: nat)
    requires Parts(d, left, right) && j < |right| && i == |left| + j
    ensures InclusionPath(d, i) == InclusionPath(right, j) + [Root(left)]
  {
    hide Root;
  }

  /** Above two leaves the parts are paired separately, and the left one evenly. */
  lemma PairsOfBoth(d: seq<Digest>, left: seq<Digest>, right: seq<Digest>)
    requires Parts(d, left, right) && |d| > 2
    ensures |d| == |left| + |right| && |left| == 2 * |Pairs(left)| && |right| > 0
    ensures Parts(Pairs(d), Pairs(left), Pairs(right))
    ensures Root(Pairs(left)) == Root(left) && Root(Pairs(right)) == Root(right)
  {
    var h := SplitOfPairs(d);
    RootOfPairs(left);
    RootOfPairs(right);
  }

  lemma SiblingInLeft(d: seq<Digest>, left: seq<Digest>, i: nat)
    requires left <= d && |left| % 2 == 0 && i < |left|
    ensures Sibling(d, i) == Sibling(left, i)
  {
  }

  lemma SiblingInRight(d: seq<Digest>, right: seq<Digest>, i: nat, j: nat)
    requires |right| <= |d| && right == d[|d| - |right|..] && (|d| - |right|) % 2 == 0
    requires j < |right| && i == |d| - |right| + j
    ensures Sibling(d, i) == Sibling(right, j)
  {
  }

  /** A digest with a neighbour puts that neighbour in front of the path of its pair, a
      promoted digest adds nothing. */
  ghost predicate ByLevel(d: seq<Digest>, i: nat)
    requires i < |d|
  {
    InclusionPath(d, i) == Sibling(d, i) + InclusionPath(Pairs(d), i / 2)
  }

  lemma FromParts(whole: seq<Digest>, sibling: seq<Digest>, inner: seq<Digest>, last: seq<Digest>)
    requires whole == (sibling + inner) + last
    ensures whole == sibling + (inner + last)
  {
    Assoc(sibling, inner, last);
  }

  lemma ByLevelInLeft(d: seq<Digest>, left: seq<Digest>, right: seq<Digest>, i: nat)
    requires Parts(d, left, right) && |d| > 2 && i < |left|
    requires InclusionPath(left, i) == Sibling(left, i) + InclusionPath(Pairs(left), i / 2)
    ensures i < |d| && ByLevel(d, i)
  {
    hide *;
    PairsOfBoth(d, left, right);
    PrefixOfParts(d, left, right);
    SiblingInLeft(d, left, i);
    PathInLeft(d, left, right, i);
    var inner := i / 2;
    PathInLeft(Pairs(d), Pairs(left), Pairs(right), inner);
    FromParts(InclusionPath(d, i), Sibling(left, i), InclusionPath(Pairs(left), inner), [Root(right)]);
    IsByLevel(d, i);
  }

  lemma ByLevelInRight(d: seq<Digest>, left: seq<Digest>, right: seq<Digest>, i: nat, j: nat)
    requires Parts(d, left, right) && |d| > 2 && j < |right| && i == |left| + j
    requires InclusionPath(right, j) == Sibling(right, j) + InclusionPath(Pairs(right), j / 2)
    ensures i < |d| && ByLevel(d, i)
  {
    hide *;
    PairsOfBoth(d, left, right);
    PrefixOfParts(d, left, right);
    SiblingInRight(d, right, i, j);
    PathInRight(d, left, right, i, j);
    var outer, inner := i / 2, j / 2;
    PathInRight(Pairs(d), Pairs(left), Pairs(right), outer, inner);
    FromParts(InclusionPath(d, i), Sibling(right, j), InclusionPath(Pairs(right), inner), [Root(left)]);
    IsByLevel(d, i);
  }

  lemma PrefixOfParts(d: seq<Digest>, left: seq<Digest>, right: seq<Digest>)
    requires Parts(d, left, right)
    ensures left <= d && |right| == |d| - |left| && right == d[|left|..]
  {
  }

  lemma IsByLevel(d: seq<Digest>, i: nat)
    requires i < |d|
    requires InclusionPath(d, i) == Sibling(d, i) + InclusionPath(Pairs(d), i / 2)
    ensures ByLevel(d, i)
  {
    hide InclusionPath, Sibling, Pairs;
  }

  lemma ByLevelOfTwo(d: seq<Digest>, i: nat)
    requires |d| == 2 && i < 2
    ensures ByLevel(d, i)
  {
    assert d[..1] == [d[0]] && d[1..] == [d[1]];
    assert InclusionPath(d, i) == [] + [d[1 - i]];
    assert Pairs(d) == [Node(d[0], d[1])];
  }

  /** The path seen from below, level by level. */
  lemma {:induction false} InclusionPathByLevel(d: seq<Digest>, i: nat)
    requires i < |d|
    ensures InclusionPath(d, i) == Sibling(d, i) + InclusionPath(Pairs(d), i / 2)
    decreases |d|
  {
    hide InclusionPath, Root;
    if |d| == 1 {
      LeafByLevel(d);
    } else if |d| == 2 {
      ByLevelOfTwo(d, i);
    } else {
      var k := Split(|d|);
      if i < k {
        InclusionPathByLevel(d[..k], i);
        ByLevelInLeft(d, d[..k], d[k..], i);
      } else {
        InclusionPathByLevel(d[k..], i - k);
        ByLevelInRight(d, d[..k], d[k..], i, i - k);
      }
    }
  }

  lemma LeafByLevel(d: seq<Digest>)
    requires |d| == 1
    ensures ByLevel(d, 0)
  {
    assert Pairs(d) == d;
  }

  // ------------------------------------------- the same tree, level by level

  ghost function LevelRoot(d: seq<Digest>): Digest
    requires |d| > 0
    decreases |d|
  {
    if |d| == 1 then d[0] else LevelRoot(Pairs(d))
  }

  ghost function LevelPath(d: seq<Digest>, i: nat): seq<Digest>
    requires i < |d|
    decreases |d|
  {
    if |d| == 1 then [] else Sibling(d, i) + LevelPath(Pairs(d), i / 2)
  }

  lemma {:induction false} RootIsLevelRoot(d: seq<Digest>)
    requires |d| > 0
    ensures Root(d) == LevelRoot(d)
    decreases |d|
  {
    if |d| > 1 {
      RootOfPairs(d);
      RootIsLevelRoot(Pairs(d));
    }
  }

  lemma {:induction false} PathIsLevelPath(d: seq<Digest>, i: nat)
    requires i < |d|
    ensures InclusionPath(d, i) == LevelPath(d, i)
    decreases |d|
  {
    if |d| > 1 {
      InclusionPathByLevel(d, i);
      PathIsLevelPath(Pairs(d), i / 2);
    }
  }

  // ---------------------------------------------------- consistency paths

  /** The generator's recursion.  It never passes its "complete" flag on, so a path
      that ends in a full left part still starts with that part's root. */
  ghost function SubProof(d: seq<Digest>, m: nat, complete: bool): seq<Digest>
    requires 0 < m <= |d|
    decreases |d|
  {
    if m == |d| then if complete then [] else [Root(d)]
    else
      var k := Split(|d|);
      if m <= k then SubProof(d[..k], m, false) + [Root(d[k..])]
      else SubProof(d[k..], m - k, complete && m == |d|) + [Root(d[..k])]
  }

  ghost function ConsistencyPath(d: seq<Digest>, m: nat): seq<Digest>
    requires m <= |d|
  {
    if m == 0 || m == |d| then [] else SubProof(d, m, true)
  }

  method MerkleSubProof(leaves: seq<Digest>, m: nat, complete: bool) returns (path: seq<Digest>)
    requires 0 < m <= |leaves|
    ensures path == SubProof(leaves, m, complete)
    decreases |leaves|
  {
    var n := |leaves|;
    if m == n {
      if complete { return []; }
      var root := MerkleRoot(leaves);
      return [root];
    }
    var split := ComputeSplit(n);
    if m <= split {
      var rest := MerkleSubProof(leaves[..split], m, false);
      var sibling := MerkleRoot(leaves[split..]);
      path := rest + [sibling];
    } else {
      var rest := MerkleSubProof(leaves[split..], m - split, complete && m == n);
      var sibling := MerkleRoot(leaves[..split]);
      path := rest + [sibling];
    }
  }

  method MerkleConsistencyProof(leaves: seq<Digest>, oldSize: nat, newSize: nat) returns (path: seq<Digest>)
    requires oldSize <= newSize <= |leaves|
    ensures path == ConsistencyPath(leaves[..newSize], oldSize)
  {
    if oldSize == 0 || oldSize == newSize { return []; }
    path := MerkleSubProof(leaves[..newSize], oldSize, true);
  }

  /** SUBPROOF of section 2.1.2 of RFC 6962, which does pass the flag to the left. */
  ghost function RfcSubProof(d: seq<Digest>, m: nat, complete: bool): seq<Digest>
    requires 0 < m <= |d|
    decreases |d|
  {
    if m == |d| then if complete then [] else [Root(d)]
    else
      var k := Split(|d|);
      if m <= k then RfcSubProof(d[..k], m, complete) + [Root(d[k..])]
      else RfcSubProof(d[k..], m - k, false) + [Root(d[..k])]
  }

  lemma {:induction false} SubProofWithoutFlag(d: seq<Digest>, m: nat)
    requires 0 < m <= |d|
    ensures SubProof(d, m, false) == RfcSubProof(d, m, false)
    decreases |d|
  {
    if m < |d| {
      var k := Split(|d|);
      if m <= k {
        SubProofWithoutFlag(d[..k], m);
      } else {
        SubProofWithoutFlag(d[k..], m - k);
      }
    }
  }

  /** Where the generated path and the one of RFC 6962 agree: an old size that is a
      power of two gets the old root in front, every other size gets the same path. */
  lemma {:induction false} ConsistencyPathVersusRfc(d: seq<Digest>, m: nat)
    requires 0 < m < |d|
    ensures IsPowerOfTwo(m) ==> ConsistencyPath(d, m) == [Root(d[..m])] + RfcSubProof(d, m, true)
    ensures !IsPowerOfTwo(m) ==> ConsistencyPath(d, m) == RfcSubProof(d, m, true)
    decreases |d|
  {
    var k := Split(|d|);
    SplitIsPowerOfTwo(|d|);
    if m > k {
      SubProofWithoutFlag(d[k..], m - k);
      if IsPowerOfTwo(m) {
        PowersAreSparse(k, m);
      }
    } else if m == k {
      assert SubProof(d[..k], m, false) == [Root(d[..m])];
      assert RfcSubProof(d[..k], m, true) == [];
    } else {
      ConsistencyPathVersusRfc(d[..k], m);
      assert d[..k][..m] == d[..m];
      SubProofTopFlag(d[..k], m);
    }
  }

  /** Below the full size the flag makes no difference to the generator. */
  lemma SubProofTopFlag(d: seq<Digest>, m: nat)
    requires 0 < m < |d|
    ensures SubProof(d, m, true) == SubProof(d, m, false)
  {
  }
}
