/**
 The sparse Merkle map of the current registry state.  The program fixes the depth at
 256; here it is a parameter, and every key is below 2 to that power.

 As in the history tree the hash is a free constructor; its three kinds stand for the
 prefixes 0x00 (default), 0x01 (leaf) and 0x02 (node).
 */
module SparseMap {
  import opened Sequences

  type Value = seq<bv8>

  datatype Digest = DefaultLeaf | Leaf(key: nat, value: Value) | Node(left: Digest, right: Digest)

  function Pow2(n: nat): (p: nat)
    ensures p > 0
  {
    if n == 0 then 1 else 2 * Pow2(n - 1)
  }

  // ------------------------------------------------------------------- bits

  /** The key shifted right by `n` bits. */
  function Shifted(key: nat, n: nat): nat {
    if n == 0 then key else Shifted(key, n - 1) / 2
  }

  lemma {:induction false} ShiftedIsSmall(key: nat, n: nat, total: nat)
    requires n <= total && key < Pow2(total)
    ensures Shifted(key, n) < Pow2(total - n)
  {
    if n > 0 {
      ShiftedIsSmall(key, n - 1, total);
    }
  }

  /** Bit number `level` of a key, the most significant bit being number 0. */
  function Bit(depth: nat, key: nat, level: nat): (b: nat)
    requires level < depth
    ensures b <= 1
  {
    Shifted(key, depth - 1 - level) % 2
  }

  /** The number made of the first `level` bits. */
  ghost function Prefix(depth: nat, key: nat, level: nat): nat
    requires level <= depth
  {
    Shifted(key, depth - level)
  }

  /** A prefix is the shorter prefix and the next bit. */
  lemma PrefixStep(depth: nat, key: nat, level: nat)
    requires level < depth
    ensures Prefix(depth, key, level + 1) == 2 * Prefix(depth, key, level) + Bit(depth, key, level)
  {
  }

  // ------------------------------------------------------------------ the tree

  ghost predicate InRange(depth: nat, items: map<nat, Value>) {
    forall k :: k in items ==> k < Pow2(depth)
  }

  /** Every key of a subtree's items starts with the bits that lead to the subtree. */
  ghost predicate Under(depth: nat, items: map<nat, Value>, level: nat, prefix: nat)
    requires level <= depth
  {
    forall k :: k in items ==> Prefix(depth, k, level) == prefix
  }

  function Default(height: nat): Digest {
    if height == 0 then DefaultLeaf else Node(Default(height - 1), Default(height - 1))
  }

  function Side(depth: nat, items: map<nat, Value>, level: nat, bit: nat): map<nat, Value>
    requires level < depth
  {
    map k | k in items && Bit(depth, k, level) == bit :: items[k]
  }

  /** The digest of a subtree; at full depth it is the leaf of an item. */
  ghost function Subtree(depth: nat, items: map<nat, Value>, level: nat): Digest
    requires level <= depth
    decreases depth - level
  {
    if items == map[] then Default(depth - level)
    else if level == depth then
      var k :| k in items; Leaf(k, items[k])
    else
      Node(Subtree(depth, Side(depth, items, level, 0), level + 1),
           Subtree(depth, Side(depth, items, level, 1), level + 1))
  }

  ghost function MapRoot(depth: nat, items: map<nat, Value>): Digest {
    Subtree(depth, items, 0)
  }

  lemma AllUnderRoot(depth: nat, items: map<nat, Value>)
    requires InRange(depth, items)
    ensures Under(depth, items, 0, 0)
  {
    forall k | k in items
      ensures Prefix(depth, k, 0) == 0
    {
      ShiftedIsSmall(k, depth, depth);
    }
  }

  lemma SideIsUnder(depth: nat, items: map<nat, Value>, level: nat, prefix: nat, bit: nat)
    requires level < depth && Under(depth, items, level, prefix)
    ensures Under(depth, Side(depth, items, level, bit), level + 1, 2 * prefix + bit)
  {
    forall k | k in items
      ensures Prefix(depth, k, level + 1) == 2 * prefix + Bit(depth, k, level)
    {
      PrefixStep(depth, k, level);
    }
  }

  /** At full depth at most one item is left, since a key is its own full prefix. */
  lemma OnlyKey(depth: nat, items: map<nat, Value>, key: nat)
    requires Under(depth, items, depth, key)
    ensures forall k :: k in items ==> k == key
  {
    forall k | k in items
      ensures k == key
    {
      assert Prefix(depth, k, depth) == k;
    }
  }

  /** Two keys in range that agree on every bit are equal. */
  lemma {:induction false} BitsDetermineKey(depth: nat, a: nat, b: nat, level: nat)
    requires level <= depth
    requires a < Pow2(depth) && b < Pow2(depth)
    requires forall i :: 0 <= i < level ==> Bit(depth, a, i) == Bit(depth, b, i)
    ensures Prefix(depth, a, level) == Prefix(depth, b, level)
    ensures level == depth ==> a == b
  {
    if level == 0 {
      ShiftedIsSmall(a, depth, depth);
      ShiftedIsSmall(b, depth, depth);
    } else {
      BitsDetermineKey(depth, a, b, level - 1);
      PrefixStep(depth, a, level - 1);
      PrefixStep(depth, b, level - 1);
    }
  }

  /** The generator's recursion.  Unpacking the only item at full depth cannot fail. */
  method ComputeSubtree(depth: nat, items: map<nat, Value>, level: nat, ghost prefix: nat) returns (digest: Digest)
    requires level <= depth && Under(depth, items, level, prefix)
    ensures digest == Subtree(depth, items, level)
    decreases depth - level
  {
    if items == map[] { return Default(depth - level); }
    if level == depth {
      OnlyKey(depth, items, prefix);
      var k :| k in items;
      return Leaf(k, items[k]);
    }
    SideIsUnder(depth, items, level, prefix, 0);
    SideIsUnder(depth, items, level, prefix, 1);
    var left := ComputeSubtree(depth, Side(depth, items, level, 0), level + 1, 2 * prefix);
    var right := ComputeSubtree(depth, Side(depth, items, level, 1), level + 1, 2 * prefix + 1);
    digest := Node(left, right);
  }

  // ----------------------------------------------------------------- proofs

  /** The siblings on the way from a subtree down to a key, topmost first. */
  ghost function Siblings(depth: nat, items: map<nat, Value>, key: nat, level: nat): seq<Digest>
    requires level <= depth
    decreases depth - level
  {
    if level == depth then []
    else
      var bit := Bit(depth, key, level);
      [Subtree(depth, Side(depth, items, level, 1 - bit), level + 1)] +
      Siblings(depth, Side(depth, items, level, bit), key, level + 1)
  }

  lemma SiblingsStep(depth: nat, items: map<nat, Value>, key: nat, level: nat)
    requires level < depth
    ensures Siblings(depth, items, key, level) ==
            [Subtree(depth, Side(depth, items, level, 1 - Bit(depth, key, level)), level + 1)] +
            Siblings(depth, Side(depth, items, level, Bit(depth, key, level)), key, level + 1)
  {
  }

  ghost function MapProof(depth: nat, items: map<nat, Value>, key: nat): seq<Digest> {
    Siblings(depth, items, key, 0)
  }

  /** The generator's inner recursion, which appends to the list of siblings. */
  method AppendSiblings(depth: nat, items: map<nat, Value>, key: nat, level: nat, ghost prefix: nat,
                        siblings: seq<Digest>)
    returns (all: seq<Digest>)
    requires level <= depth && Under(depth, items, level, prefix)
    ensures all == siblings + Siblings(depth, items, key, level)
    decreases depth - level
  {
    hide Under, Side, Subtree;
    if level == depth { return siblings; }
    var bit := Bit(depth, key, level);
    var mine, other := Side(depth, items, level, bit), Side(depth, items, level, 1 - bit);
    SideIsUnder(depth, items, level, prefix, bit);
    SideIsUnder(depth, items, level, prefix, 1 - bit);
    hide Siblings;
    var sibling := ComputeSubtree(depth, other, level + 1, 2 * prefix + 1 - bit);
    all := AppendSiblings(depth, mine, key, level + 1, 2 * prefix + bit, siblings + [sibling]);
    SiblingsStep(depth, items, key, level);
    Assoc(siblings, [sibling], Siblings(depth, mine, key, level + 1));
  }

  method GenerateProof(depth: nat, items: map<nat, Value>, key: nat) returns (siblings: seq<Digest>)
    requires InRange(depth, items)
    ensures siblings == MapProof(depth, items, key)
  {
    AllUnderRoot(depth, items);
    siblings := AppendSiblings(depth, items, key, 0, 0, []);
  }

  /** What stands at a key's place at the bottom of the tree. */
  function BottomOf(items: map<nat, Value>, key: nat): Digest {
    if key in items then Leaf(key, items[key]) else DefaultLeaf
  }

  /** The digest at `level` that the validator folds from the bottom. */
  function Folded(depth: nat, key: nat, bottom: Digest, siblings: seq<Digest>, level: nat): Digest
    requires level <= depth <= |siblings|
    decreases depth - level
  {
    if level == depth then bottom
    else
      var node := Folded(depth, key, bottom, siblings, level + 1);
      if Bit(depth, key, level) == 0 then Node(node, siblings[level]) else Node(siblings[level], node)
  }

  /** The validator's loop, from the last level to the first. */
  method RootFromProof(depth: nat, key: nat, bottom: Digest, siblings: seq<Digest>) returns (node: Digest)
    requires depth <= |siblings|
    ensures node == Folded(depth, key, bottom, siblings, 0)
  {
    node := bottom;
    var level := depth;
    while level > 0
      invariant 0 <= level <= depth
      invariant node == Folded(depth, key, bottom, siblings, level)
    {
      level := level - 1;
      var sibling := siblings[level];
      if Bit(depth, key, level) == 0 {
        node := Node(node, sibling);
      } else {
        node := Node(sibling, node);
      }
    }
  }

  /** A subtree above the bottom is always the node of its two sides, also when empty. */
  lemma SubtreeIsNode(depth: nat, items: map<nat, Value>, level: nat)
    requires level < depth
    ensures Subtree(depth, items, level) ==
            Node(Subtree(depth, Side(depth, items, level, 0), level + 1),
                 Subtree(depth, Side(depth, items, level, 1), level + 1))
  {
    if items == map[] {
      assert Side(depth, items, level, 0) == map[] && Side(depth, items, level, 1) == map[];
    }
  }

  /** The fold reaches a subtree's digest exactly when both what is put at the bottom and
      every sibling are the ones of the map. */
  ghost predicate FoldsOnlyFrom(depth: nat, items: map<nat, Value>, key: nat, level: nat,
                                bottom: Digest, siblings: seq<Digest>)
    requires level <= depth == |siblings|
  {
    Folded(depth, key, bottom, siblings, level) == Subtree(depth, items, level)
    <==> bottom == BottomOf(items, key) && siblings[level..] == Siblings(depth, items, key, level)
  }

  lemma {:induction false} FoldIsExact(depth: nat, items: map<nat, Value>, key: nat, level: nat,
                                       bottom: Digest, siblings: seq<Digest>)
    requires level <= depth == |siblings|
    requires Under(depth, items, level, Prefix(depth, key, level))
    ensures FoldsOnlyFrom(depth, items, key, level, bottom, siblings)
    decreases depth - level
  {
    if level == depth {
      OnlyKey(depth, items, key);
      if items != map[] {
        var k :| k in items;
      }
      assert siblings[level..] == [];
    } else {
      var bit := Bit(depth, key, level);
      PrefixStep(depth, key, level);
      SideIsUnder(depth, items, level, Prefix(depth, key, level), bit);
      FoldIsExact(depth, Side(depth, items, level, bit), key, level + 1, bottom, siblings);
      FoldStep(depth, items, key, level, bottom, siblings);
    }
  }

  /** A node of the side that holds the key and the other one. */
  function Beside(bit: int, mine: Digest, other: Digest): Digest {
    if bit == 0 then Node(mine, other) else Node(other, mine)
  }

  lemma FoldedStep(depth: nat, key: nat, level: nat, bottom: Digest, siblings: seq<Digest>)
    requires level < depth <= |siblings|
    ensures Folded(depth, key, bottom, siblings, level) ==
            Beside(Bit(depth, key, level), Folded(depth, key, bottom, siblings, level + 1), siblings[level])
  {
    hide Bit;
  }

  lemma SubtreeStep(depth: nat, items: map<nat, Value>, level: nat, bit: nat)
    requires level < depth && bit <= 1
    ensures Subtree(depth, items, level) ==
            Beside(bit, Subtree(depth, Side(depth, items, level, bit), level + 1),
                   Subtree(depth, Side(depth, items, level, 1 - bit), level + 1))
  {
    hide Subtree, Side;
    SubtreeIsNode(depth, items, level);
    if bit == 0 {
      assert 1 - bit == 1;
    } else {
      assert bit == 1 && 1 - bit == 0;
    }
  }

  lemma BottomOfSide(depth: nat, items: map<nat, Value>, key: nat, level: nat)
    requires level < depth
    ensures BottomOf(Side(depth, items, level, Bit(depth, key, level)), key) == BottomOf(items, key)
  {
    hide Bit;
  }

  lemma FoldStep(depth: nat, items: map<nat, Value>, key: nat, level: nat, bottom: Digest, siblings: seq<Digest>)
    requires level < depth == |siblings|
    requires FoldsOnlyFrom(depth, Side(depth, items, level, Bit(depth, key, level)), key, level + 1, bottom, siblings)
    ensures FoldsOnlyFrom(depth, items, key, level, bottom, siblings)
  {
    hide Subtree, BottomOf, Side, Siblings, Bit, Folded;
    var bit := Bit(depth, key, level);
    FoldedStep(depth, key, level, bottom, siblings);
    SubtreeStep(depth, items, level, bit);
    BottomOfSide(depth, items, key, level);
    SiblingsStep(depth, items, key, level);
    assert siblings[level..] == [siblings[level]] + siblings[level + 1..];
    SplitFront(siblings[level], siblings[level + 1..],
               Subtree(depth, Side(depth, items, level, 1 - bit), level + 1),
               Siblings(depth, Side(depth, items, level, bit), key, level + 1));
  }

  lemma {:induction false} FoldReadsPrefix(depth: nat, key: nat, bottom: Digest, siblings: seq<Digest>, level: nat)
    requires level <= depth <= |siblings|
    ensures Folded(depth, key, bottom, siblings, level) == Folded(depth, key, bottom, siblings[..depth], level)
    decreases depth - level
  {
    if level < depth {
      FoldReadsPrefix(depth, key, bottom, siblings, level + 1);
      hide Bit;
    }
  }

  /** Completeness and soundness of the sparse map at any depth: a list of siblings that
      is long enough takes a bottom digest to the map's root exactly when the bottom digest
      is the key's own (its leaf, or the default when absent) and the siblings begin with
      the generated ones.  What comes after is not read. */
  lemma MapProofIsExact(depth: nat, items: map<nat, Value>, key: nat, bottom: Digest, siblings: seq<Digest>)
    requires InRange(depth, items) && key < Pow2(depth) && depth <= |siblings|
    ensures Folded(depth, key, bottom, siblings, 0) == MapRoot(depth, items)
            <==> bottom == BottomOf(items, key) && siblings[..depth] == MapProof(depth, items, key)
  {
    FoldReadsPrefix(depth, key, bottom, siblings, 0);
    AllUnderRoot(depth, items);
    ShiftedIsSmall(key, depth, depth);
    FoldIsExact(depth, items, key, 0, bottom, siblings[..depth]);
    assert siblings[..depth][0..] == siblings[..depth];
    hide Subtree, Folded, BottomOf, Siblings, InRange, Under;
  }

  /** Under one root no key has two values, and none is both present and absent. */
  lemma NoTwoAnswers(depth: nat, items: map<nat, Value>, key: nat, value: Value, other: Digest,
                     siblings: seq<Digest>, siblings': seq<Digest>)
    requires InRange(depth, items) && key < Pow2(depth) && depth <= |siblings| && depth <= |siblings'|
    requires Folded(depth, key, Leaf(key, value), siblings, 0) == MapRoot(depth, items)
    requires Folded(depth, key, other, siblings', 0) == MapRoot(depth, items)
    ensures key in items && items[key] == value
    ensures other == Leaf(key, value)
  {
    MapProofIsExact(depth, items, key, Leaf(key, value), siblings);
    MapProofIsExact(depth, items, key, other, siblings');
    hide Folded, Subtree, Siblings, InRange;
  }

  lemma {:induction false} ProofIsFull(depth: nat, items: map<nat, Value>, key: nat, level: nat)
    requires level <= depth
    ensures |Siblings(depth, items, key, level)| == depth - level
    decreases depth - level
  {
    if level < depth {
      ProofIsFull(depth, Side(depth, items, level, Bit(depth, key, level)), key, level + 1);
    }
  }

  /** The root commits to the whole map. */
  lemma RootDeterminesMap(depth: nat, a: map<nat, Value>, b: map<nat, Value>)
    requires InRange(depth, a) && InRange(depth, b)
    requires MapRoot(depth, a) == MapRoot(depth, b)
    ensures a == b
  {
    forall key | key in a || key in b
      ensures BottomOf(a, key) == BottomOf(b, key)
    {
      SameBottom(depth, a, b, key);
    }
    hide Subtree, InRange;
    assert a.Keys == b.Keys;
  }

  lemma SameBottom(depth: nat, a: map<nat, Value>, b: map<nat, Value>, key: nat)
    requires InRange(depth, a) && InRange(depth, b) && key < Pow2(depth)
    requires MapRoot(depth, a) == MapRoot(depth, b)
    ensures BottomOf(a, key) == BottomOf(b, key)
  {
    ProofIsFull(depth, a, key, 0);
    MapProofIsExact(depth, a, key, BottomOf(a, key), MapProof(depth, a, key));
    MapProofIsExact(depth, b, key, BottomOf(a, key), MapProof(depth, a, key));
    hide Subtree, Folded, BottomOf, Siblings, InRange;
    assert MapProof(depth, a, key)[..depth] == MapProof(depth, a, key);
  }
}
