/**
  The stored Merkle index: completed internal nodes only, appended with every ledger entry, from which
  subtree roots and historical proofs are read back.
*/
module MerkleIndex {
  import opened Basics
  import opened MerkleTree
  import opened MerkleProof

  /** Primary key of one stored node: `index` counts the aligned subtrees of 2^level leaves. */
  datatype Key = Key(level: nat, index: nat)

  type Nodes = map<Key, Digest>

  ghost function Start(key: Key): nat { key.index * Pow2(key.level) }

  ghost function End(key: Key): nat { (key.index + 1) * Pow2(key.level) }

  /** The subtree of `key` is internal and lies inside the first `n` entries. */
  ghost predicate Completed(key: Key, n: nat) {
    key.level >= 1 && End(key) <= n
  }

  lemma KeySpan(key: Key)
    ensures End(key) == Start(key) + Pow2(key.level)
  {
  }

  /** The table holds exactly the completed subtrees of the ledger, each with its Merkle Tree Hash. */
  ghost predicate Indexed(h: Hash, entries: seq<Digest>, nodes: Nodes) {
    && (forall key :: key in nodes <==> Completed(key, |entries|))
    && (forall key :: key in nodes ==> NodeTrue(h, entries, key, nodes[key]))
  }

  ghost predicate NodeTrue(h: Hash, entries: seq<Digest>, key: Key, digest: Digest) {
    End(key) <= |entries| && Start(key) + Pow2(key.level) <= |entries|
    && digest == TreeHash(h, entries, Start(key), Pow2(key.level))
  }

  // ---------------------------------------------------------------- arithmetic of keys

  /** A power of two splits into two halves. */
  lemma SplitOfPow2(e: nat)
    requires e >= 1
    ensures Split(Pow2(e)) == Pow2(e - 1) && Pow2(e) == 2 * Pow2(e - 1)
  {
    SplitUnique(Pow2(e), e - 1);
  }

  lemma AlignedSpans(key: Key)
    requires key.level >= 1
    ensures var l, r := Key(key.level - 1, 2 * key.index), Key(key.level - 1, 2 * key.index + 1);
            && Start(l) == Start(key)
            && Start(r) == Start(key) + Pow2(key.level - 1)
            && End(key) == Start(key) + 2 * Pow2(key.level - 1)
  {
    var half := Pow2(key.level - 1);
    assert key.index * (2 * half) == 2 * key.index * half;
    assert (2 * key.index + 1) * half == 2 * key.index * half + half;
    assert (key.index + 1) * (2 * half) == 2 * key.index * half + 2 * half;
  }

  /** An aligned subtree is the node over its two aligned halves. */
  lemma AlignedStep(h: Hash, entries: seq<Digest>, key: Key, left: Digest, right: Digest)
    requires key.level >= 1
    requires NodeTrue(h, entries, Key(key.level - 1, 2 * key.index), left)
    requires NodeTrue(h, entries, Key(key.level - 1, 2 * key.index + 1), right)
    ensures NodeTrue(h, entries, key, NodeHash(h, left, right))
  {
    AlignedSpans(key);
    SplitOfPow2(key.level);
    TreeHashStep(h, entries, Start(key), Pow2(key.level));
  }

  lemma ScaleStrict(x: nat, y: nat, p: nat)
    requires x < y && p >= 1
    ensures x * p < y * p
  {
  }

  lemma CancelFactor(x: nat, y: nat, p: nat)
    requires p >= 1 && x * p == y * p
    ensures x == y
  {
    if x < y {
      ScaleStrict(x, y, p);
    } else if y < x {
      ScaleStrict(y, x, p);
    }
  }

  lemma Reassociate(a: nat, p: nat, q: nat)
    ensures a * (p * q) == (a * q) * p
  {
  }

  /** Of two factorings by powers of two, the one with the odd factor has the larger power. */
  lemma OddFactor(a: nat, e: nat, b: nat, f: nat)
    requires a * Pow2(e) == b * Pow2(f) && b % 2 == 1
    ensures e <= f
  {
    if f < e {
      var p, r := Pow2(f), Pow2(e - f - 1);
      Pow2Sum(f, e - f);
      Reassociate(a, p, Pow2(e - f));
      CancelFactor(a * Pow2(e - f), b, p);
      Reassociate(a, 2, r);
    }
  }

  // ---------------------------------------------------------------- the index

  lemma EmptyIndexed(h: Hash)
    ensures Indexed(h, [], map[])
  {
    forall key: Key
      ensures !Completed(key, 0)
    {
      assert End(key) >= 1 by {
        assert (key.index + 1) * Pow2(key.level) >= 1 * 1;
      }
    }
  }

  class Index {
    const h: Hash
    var entries: seq<Digest>
    var nodes: Nodes

    ghost predicate Valid()
      reads this
    {
      Indexed(h, entries, nodes)
    }

    constructor (h: Hash)
      ensures Valid() && entries == [] && this.h == h
    {
      this.h := h;
      entries, nodes := [], map[];
      new;
      EmptyIndexed(h);
    }

    /**
      Append one ledger entry: store every subtree that it completes, and touch nothing else.  A missing
      sibling or an occupied key would be an error; neither happens.
    */
    method Append(entry: Digest) returns (ok: bool)
      requires Valid()
      modifies this
      ensures ok && Valid()
      ensures entries == old(entries) + [entry]
      ensures forall key :: key in old(nodes) ==> key in nodes && nodes[key] == old(nodes)[key]
    {
      AppendIndexes(h, entries, entry, nodes);
      var completed := Complete(h, entries + [entry], nodes, |entries|, LeafHash(h, entry));
      if completed.None? {
        return false;
      }
      entries, nodes := entries + [entry], completed.value;
      ok := true;
    }

    /** The root of any range, from the stored subtrees; nothing is rebuilt that is stored. */
    method SubtreeRoot(start: nat, size: nat) returns (r: Option<Digest>)
      requires Valid() && start + size <= |entries| <= TWO_62
      ensures r == if size < 1 then None else Some(TreeHash(h, entries, start, size))
      decreases size
    {
      if size < 1 {
        return None;
      }
      if IsPowerOfTwo(size) && start % size == 0 {
        var key := Key(TrailingZeros(size), start / size);
        AlignedKey(start, size);
        StoredIsTrue(h, entries, nodes, key);
        return Stored(h, entries, nodes, key);
      }
      var power := LargestPowerOfTwoLessThan(size as int64);
      var split := power as nat;
      OneIsAligned(start);
      var left := SubtreeRoot(start, split);
      if left.None? { return None; }
      var right := SubtreeRoot(start + split, size - split);
      if right.None? { return None; }
      TreeHashStep(h, entries, start, size);
      return Some(NodeHash(h, left.value, right.value));
    }

    method InclusionPathOf(start: nat, size: nat, target: nat, path: seq<Digest>) returns (r: Option<seq<Digest>>)
      requires Valid() && start <= target < start + size <= |entries| <= TWO_62
      ensures r == Some(path + InclusionPath(h, entries, start, size, target))
      decreases size
    {
      if size == 1 {
        assert path + [] == path;
        return Some(path);
      }
      var power := LargestPowerOfTwoLessThan(size as int64);
      var split := power as nat;
      if target < start + split {
        var below := InclusionPathOf(start, split, target, path);
        if below.None? { return None; }
        var right := SubtreeRoot(start + split, size - split);
        if right.None? { return None; }
        InclusionPathStep(h, entries, start, size, target, path);
        return Some(below.value + [right.value]);
      }
      var below := InclusionPathOf(start + split, size - split, target, path);
      if below.None? { return None; }
      var left := SubtreeRoot(start, split);
      if left.None? { return None; }
      InclusionPathStep(h, entries, start, size, target, path);
      return Some(below.value + [left.value]);
    }

    method ConsistencyPathOf(oldSize: nat, start: nat, newSize: nat, completeOld: bool, path: seq<Digest>)
      returns (r: Option<seq<Digest>>)
      requires Valid() && 1 <= oldSize <= newSize && start + newSize <= |entries| <= TWO_62
      ensures r == Some(path + SubProof(h, entries, start, newSize, oldSize, completeOld))
      decreases newSize
    {
      if oldSize == newSize {
        if !completeOld {
          var root := SubtreeRoot(start, newSize);
          if root.None? { return None; }
          return Some(path + [root.value]);
        }
        assert path + [] == path;
        return Some(path);
      }
      var power := LargestPowerOfTwoLessThan(newSize as int64);
      var split := power as nat;
      if oldSize <= split {
        var below := ConsistencyPathOf(oldSize, start, split, completeOld, path);
        if below.None? { return None; }
        var right := SubtreeRoot(start + split, newSize - split);
        if right.None? { return None; }
        SubProofStep(h, entries, start, newSize, oldSize, completeOld, path);
        return Some(below.value + [right.value]);
      }
      var below := ConsistencyPathOf(oldSize - split, start + split, newSize - split, false, path);
      if below.None? { return None; }
      var left := SubtreeRoot(start, split);
      if left.None? { return None; }
      SubProofStep(h, entries, start, newSize, oldSize, completeOld, path);
      return Some(below.value + [left.value]);
    }

    /**
      The proof that an entry is in any historical tree (size 0 asks for the current one).  It is found
      exactly for positions inside the tree, carries the true root, and every verifier accepts it.
    */
    method MerkleInclusionProof(ledgerIndex: int, treeSize: int) returns (r: Option<InclusionProof>)
      requires Valid() && |entries| <= TWO_62
      ensures r.Some? <==> 1 <= ledgerIndex <= Requested(treeSize, |entries|) <= |entries|
      ensures r.Some? ==> HistoricalInclusion(h, entries, ledgerIndex, Requested(treeSize, |entries|), r.value)
    {
      var size := Requested(treeSize, |entries|);
      if size < 1 || size > |entries| || ledgerIndex < 1 || ledgerIndex > size {
        return None;
      }
      var entryHash := entries[ledgerIndex - 1];
      var leaf := LeafHash(h, entryHash);
      var path := InclusionPathOf(0, size, ledgerIndex - 1, []);
      if path.None? { return None; }
      EmptyLeft(InclusionPath(h, entries, 0, size, ledgerIndex - 1));
      var root := SubtreeRoot(0, size);
      if root.None? { return None; }
      r := Some(InclusionProof(ledgerIndex, Canonical(entryHash), Canonical(leaf), Texts(path.value),
                               TreeHead(true, size, Canonical(root.value))));
      InclusionComplete(h, entries, size, ledgerIndex - 1);
    }

    /** The proof that one historical tree is a prefix of another, likewise. */
    method MerkleConsistencyProof(oldTreeSize: int, newTreeSize: int) returns (r: Option<ConsistencyProof>)
      requires Valid() && |entries| <= TWO_62
      ensures r.Some? <==> 0 <= oldTreeSize <= Requested(newTreeSize, |entries|) <= |entries|
      ensures r.Some? ==> HistoricalConsistency(h, entries, oldTreeSize, Requested(newTreeSize, |entries|), r.value)
    {
      var size := Requested(newTreeSize, |entries|);
      if oldTreeSize < 0 || oldTreeSize > size || size > |entries| {
        return None;
      }
      var oldRoot := EmptyRoot(h);
      if oldTreeSize > 0 {
        var root := SubtreeRoot(0, oldTreeSize);
        if root.None? { return None; }
        oldRoot := root.value;
      }
      var newRoot, path := oldRoot, [];
      if oldTreeSize != size {
        var root := SubtreeRoot(0, size);
        if root.None? { return None; }
        newRoot := root.value;
        if oldTreeSize > 0 {
          var steps := ConsistencyPathOf(oldTreeSize, 0, size, true, path);
          if steps.None? { return None; }
          EmptyLeft(SubProof(h, entries, 0, size, oldTreeSize, true));
          path := steps.value;
        }
      }
      r := Some(ConsistencyProof(oldTreeSize, Canonical(oldRoot), Texts(path),
                                 TreeHead(true, size, Canonical(newRoot))));
      ConsistencyComplete(h, entries, size, oldTreeSize);
    }
  }

  /** The loop of an append: from the new leaf upward, as long as it ends a pair. */
  method Complete(h: Hash, entries: seq<Digest>, table: Nodes, position: nat, leaf: Digest) returns (r: Option<Nodes>)
    ensures r == Completions(h, entries, table, Key(0, position), leaf)
  {
    var nodes, current := table, leaf;
    var nodeIndex: nat, level: nat := position, 0;
    while nodeIndex % 2 == 1
      invariant Completions(h, entries, nodes, Key(level, nodeIndex), current)
                == Completions(h, entries, table, Key(0, position), leaf)
      decreases nodeIndex
    {
      var left := Stored(h, entries, nodes, Key(level, nodeIndex - 1));
      if left.None? {
        return None;
      }
      current := NodeHash(h, left.value, current);
      nodeIndex, level := nodeIndex / 2, level + 1;
      if Key(level, nodeIndex) in nodes {
        return None;
      }
      nodes := nodes[Key(level, nodeIndex) := current];
    }
    return Some(nodes);
  }

  lemma InclusionPathStep(h: Hash, d: seq<Digest>, lo: nat, n: nat, i: nat, path: seq<Digest>)
    requires lo <= i < lo + n <= |d| && n >= 2
    ensures path + InclusionPath(h, d, lo, n, i)
            == var k := Split(n);
               if i < lo + k then (path + InclusionPath(h, d, lo, k, i)) + [TreeHash(h, d, lo + k, n - k)]
               else (path + InclusionPath(h, d, lo + k, n - k, i)) + [TreeHash(h, d, lo, k)]
  {
  }

  lemma SubProofStep(h: Hash, d: seq<Digest>, lo: nat, n: nat, m: nat, b: bool, path: seq<Digest>)
    requires 1 <= m < n && lo + n <= |d|
    ensures path + SubProof(h, d, lo, n, m, b)
            == var k := Split(n);
               if m <= k then (path + SubProof(h, d, lo, k, m, b)) + [TreeHash(h, d, lo + k, n - k)]
               else (path + SubProof(h, d, lo + k, n - k, m - k, false)) + [TreeHash(h, d, lo, k)]
  {
  }

  lemma EmptyLeft(p: seq<Digest>)
    ensures [] + p == p
  {
  }

  /** Size 0 stands for the current tree. */
  function Requested(treeSize: int, actual: nat): int {
    if treeSize == 0 then actual else treeSize
  }

  /** `proof` places entry `i` (counted from 1) in the tree of the first `n` entries, and is accepted. */
  ghost predicate HistoricalInclusion(h: Hash, entries: seq<Digest>, i: int, n: int, proof: InclusionProof)
    requires 1 <= i <= n <= |entries|
  {
    && proof.ledgerIndex == i && proof.entryHash == Canonical(entries[i - 1])
    && proof.head == TreeHead(true, n, Canonical(TreeHash(h, entries, 0, n)))
    && InclusionVerdict(h, proof) == Accepted
  }

  /** `proof` relates the trees of the first `m` and the first `n` entries, and is accepted. */
  ghost predicate HistoricalConsistency(h: Hash, entries: seq<Digest>, m: int, n: int, proof: ConsistencyProof)
    requires 0 <= m <= n <= |entries|
  {
    && proof.oldTreeSize == m && proof.oldRootHash == Canonical(TreeHash(h, entries, 0, m))
    && proof.head == TreeHead(true, n, Canonical(TreeHash(h, entries, 0, n)))
    && ConsistencyVerdict(h, proof) == Accepted
  }

  // ---------------------------------------------------------------- aligned ranges

  /** The exponent of the largest power of two that divides `n`. */
  function TrailingZeros(n: nat): nat
    requires n >= 1
  {
    if n % 2 == 1 then 0 else 1 + TrailingZeros(n / 2)
  }

  /** What `n & (n - 1) == 0` tests. */
  predicate IsPowerOfTwo(n: nat)
    requires n >= 1
  {
    Pow2(TrailingZeros(n)) == n
  }

  lemma AlignedKey(start: nat, size: nat)
    requires size >= 1 && IsPowerOfTwo(size) && start % size == 0
    ensures var key := Key(TrailingZeros(size), start / size);
            Start(key) == start && End(key) == start + size && Pow2(key.level) == size
  {
    var q := start / size;
    assert start == q * size;
    assert (q + 1) * size == q * size + size;
  }

  lemma OneIsAligned(start: nat)
    ensures IsPowerOfTwo(1) && start % 1 == 0
  {
  }

  /** The largest power of two below `n`. */
  function LargestPower(n: nat): (p: nat)
    requires n >= 2
    ensures 1 <= p < n
  {
    if n == 2 then 1 else 2 * LargestPower((n + 1) / 2)
  }

  lemma {:induction false} LargestPowerIsSplit(n: nat) returns (e: nat)
    requires n >= 2
    ensures LargestPower(n) == Split(n) == Pow2(e)
  {
    if n == 2 {
      e := 0;
    } else {
      e := LargestPowerIsSplit((n + 1) / 2);
      SplitUnique((n + 1) / 2, e);
      e := e + 1;
    }
    SplitUnique(n, e);
  }

  /** The range is one aligned subtree. */
  predicate Aligned(start: nat, size: nat) {
    size == 1 || (size >= 2 && size % 2 == 0 && start % 2 == 0 && Aligned(start / 2, size / 2))
  }

  function KeyOf(start: nat, size: nat): Key
    requires Aligned(start, size)
  {
    if size == 1 then Key(0, start)
    else
      var half := KeyOf(start / 2, size / 2);
      Key(half.level + 1, half.index)
  }

  lemma {:induction false} KeyOfSpans(start: nat, size: nat)
    requires Aligned(start, size)
    ensures var key := KeyOf(start, size);
            Start(key) == start && End(key) == start + size && Pow2(key.level) == size
  {
    if size == 1 {
    } else {
      KeyOfSpans(start / 2, size / 2);
      var key := KeyOf(start / 2, size / 2);
      Reassociate(key.index, 2, Pow2(key.level));
      Reassociate(key.index + 1, 2, Pow2(key.level));
    }
  }

  /** What is read for the root of a range: the stored subtree, or the node over its two parts. */
  function RangeRoot(h: Hash, entries: seq<Digest>, nodes: Nodes, start: nat, size: nat): Option<Digest>
    decreases |entries|, size
  {
    if size == 0 then None
    else if Aligned(start, size) then Stored(h, entries, nodes, KeyOf(start, size))
    else
      var split := LargestPower(size);
      var left := RangeRoot(h, entries, nodes, start, split);
      var right := RangeRoot(h, entries, nodes, start + split, size - split);
      if left.None? || right.None? then None else Some(NodeHash(h, left.value, right.value))
  }

  lemma AlignedRoot(h: Hash, entries: seq<Digest>, nodes: Nodes, start: nat, size: nat)
    requires Indexed(h, entries, nodes) && size >= 1 && start + size <= |entries| && Aligned(start, size)
    ensures RangeRoot(h, entries, nodes, start, size) == Some(TreeHash(h, entries, start, size))
  {
    KeyOfSpans(start, size);
    StoredIsTrue(h, entries, nodes, KeyOf(start, size));
  }

  lemma SplitRoot(h: Hash, entries: seq<Digest>, nodes: Nodes, start: nat, size: nat, split: nat,
                  left: Option<Digest>, right: Option<Digest>)
    requires size >= 2 && !Aligned(start, size) && split == LargestPower(size)
    requires left == RangeRoot(h, entries, nodes, start, split) && left.Some?
    requires right == RangeRoot(h, entries, nodes, start + split, size - split) && right.Some?
    ensures RangeRoot(h, entries, nodes, start, size) == Some(NodeHash(h, left.value, right.value))
  {
  }

  lemma TreeHashAt(h: Hash, entries: seq<Digest>, start: nat, size: nat, split: nat)
    requires start + size <= |entries| && size >= 2 && split == Split(size)
    ensures split < size
    ensures TreeHash(h, entries, start, size)
            == NodeHash(h, TreeHash(h, entries, start, split), TreeHash(h, entries, start + split, size - split))
  {
  }

  /** In an exact index, it is the range's Merkle Tree Hash. */
  lemma {:induction false} RangeRootIsTrue(h: Hash, entries: seq<Digest>, nodes: Nodes, start: nat, size: nat)
    requires Indexed(h, entries, nodes) && size >= 1 && start + size <= |entries|
    ensures RangeRoot(h, entries, nodes, start, size) == Some(TreeHash(h, entries, start, size))
    decreases size
  {
    hide RangeRoot, TreeHash, Split, Indexed;
    if Aligned(start, size) {
      AlignedRoot(h, entries, nodes, start, size);
    } else {
      var split := LargestPower(size);
      var e := LargestPowerIsSplit(size);
      RangeRootIsTrue(h, entries, nodes, start, split);
      RangeRootIsTrue(h, entries, nodes, start + split, size - split);
      TreeHashAt(h, entries, start, size, split);
      SplitRoot(h, entries, nodes, start, size, split, RangeRoot(h, entries, nodes, start, split),
                RangeRoot(h, entries, nodes, start + split, size - split));
    }
  }

  /** The table after the loop of an append that stands at `key` with hash `current`. */
  function Completions(h: Hash, entries: seq<Digest>, nodes: Nodes, key: Key, current: Digest): Option<Nodes>
    decreases |entries|, key.index
  {
    if key.index % 2 == 0 then Some(nodes)
    else
      var left := Stored(h, entries, nodes, Key(key.level, key.index - 1));
      var parent := Key(key.level + 1, key.index / 2);
      if left.None? || parent in nodes then None
      else
        var digest := NodeHash(h, left.value, current);
        Completions(h, entries, nodes[parent := digest], parent, digest)
  }

  /** What the store reads for one aligned subtree: a leaf comes from the ledger, a node from the table. */
  function Stored(h: Hash, entries: seq<Digest>, nodes: Nodes, key: Key): Option<Digest> {
    if key.level == 0 then
      if key.index < |entries| then Some(LeafHash(h, entries[key.index])) else None
    else if key in nodes then Some(nodes[key]) else None
  }

  /** An aligned subtree inside the ledger reads back as its Merkle Tree Hash. */
  lemma StoredIsTrue(h: Hash, entries: seq<Digest>, nodes: Nodes, key: Key)
    requires Indexed(h, entries, nodes) && End(key) <= |entries|
    ensures Stored(h, entries, nodes, key).Some?
    ensures NodeTrue(h, entries, key, Stored(h, entries, nodes, key).value)
  {
    KeySpan(key);
    if key.level >= 1 {
      assert Completed(key, |entries|);
    }
  }

  /** The loop of an append: `key` ends with the last entry and `current` is its hash. */
  ghost predicate Chain(h: Hash, entries: seq<Digest>, table: Nodes, nodes: Nodes, key: Key, current: Digest) {
    && |entries| >= 1 && End(key) == |entries|
    && Indexed(h, entries[..|entries| - 1], table)
    && NodeTrue(h, entries, key, current)
    && Growing(h, entries, table, nodes, key.level)
  }

  lemma ChainStarts(h: Hash, entries: seq<Digest>, entry: Digest, nodes: Nodes)
    requires Indexed(h, entries, nodes)
    ensures Chain(h, entries + [entry], nodes, nodes, Key(0, |entries|), LeafHash(h, entry))
  {
    assert (entries + [entry])[..|entries|] == entries;
    OldNodesStayTrue(h, entries, entry, nodes);
  }

  lemma ChainStep(h: Hash, entries: seq<Digest>, table: Nodes, nodes: Nodes, key: Key, current: Digest)
    requires Chain(h, entries, table, nodes, key, current) && key.index % 2 == 1
    ensures Stored(h, entries, nodes, Key(key.level, key.index - 1)).Some?
    ensures var left := Stored(h, entries, nodes, Key(key.level, key.index - 1)).value;
            var parent := Key(key.level + 1, key.index / 2);
            var digest := NodeHash(h, left, current);
            parent !in nodes && Chain(h, entries, table, nodes[parent := digest], parent, digest)
  {
    var parent, sibling := Key(key.level + 1, key.index / 2), Key(key.level, key.index - 1);
    ParentSpan(parent, key);
    SiblingTrue(h, entries, table, nodes, key);
    var digest := NodeHash(h, Stored(h, entries, nodes, sibling).value, current);
    ParentTrue(h, entries, key, current, Stored(h, entries, nodes, sibling).value);
    assert !Completed(parent, |entries| - 1);
    GrowingStep(h, entries, table, nodes, parent, digest);
  }

  /** The left sibling of the subtree that ends with the last entry was completed before it. */
  lemma SiblingTrue(h: Hash, entries: seq<Digest>, table: Nodes, nodes: Nodes, key: Key)
    requires |entries| >= 1 && key.index >= 1 && End(key) == |entries|
    requires Indexed(h, entries[..|entries| - 1], table)
    requires Growing(h, entries, table, nodes, key.level)
    ensures Stored(h, entries, nodes, Key(key.level, key.index - 1)).Some?
    ensures var sibling := Key(key.level, key.index - 1);
            NodeTrue(h, entries, sibling, Stored(h, entries, nodes, sibling).value)
  {
    var sibling := Key(key.level, key.index - 1);
    KeySpan(key);
    KeySpan(sibling);
    assert End(sibling) == Start(key);
    if key.level >= 1 {
      assert Completed(sibling, |entries| - 1);
      assert sibling in table;
    }
  }

  lemma ParentTrue(h: Hash, entries: seq<Digest>, key: Key, current: Digest, left: Digest)
    requires key.index % 2 == 1 && NodeTrue(h, entries, key, current)
    requires NodeTrue(h, entries, Key(key.level, key.index - 1), left)
    ensures NodeTrue(h, entries, Key(key.level + 1, key.index / 2), NodeHash(h, left, current))
  {
    var parent := Key(key.level + 1, key.index / 2);
    assert key == Key(parent.level - 1, 2 * parent.index + 1);
    AlignedStep(h, entries, parent, left, current);
  }

  lemma ChainEnds(h: Hash, entries: seq<Digest>, table: Nodes, nodes: Nodes, key: Key, current: Digest)
    requires Chain(h, entries, table, nodes, key, current) && key.index % 2 == 0
    ensures Indexed(h, entries, nodes)
    ensures forall k :: k in table ==> k in nodes && nodes[k] == table[k]
  {
    var before := entries[..|entries| - 1];
    HighestWithEnd(key, |entries|);
    AppendCompletes(h, entries, table, nodes, key.level);
  }

  lemma CompletionsStep(h: Hash, entries: seq<Digest>, nodes: Nodes, key: Key, current: Digest, left: Digest)
    requires key.index % 2 == 1 && Stored(h, entries, nodes, Key(key.level, key.index - 1)) == Some(left)
    requires Key(key.level + 1, key.index / 2) !in nodes
    ensures var parent, digest := Key(key.level + 1, key.index / 2), NodeHash(h, left, current);
            Completions(h, entries, nodes, key, current)
            == Completions(h, entries, nodes[parent := digest], parent, digest)
  {
  }

  /** The loop ends, without an error, at some even key. */
  lemma {:induction false} ChainCompletes(h: Hash, entries: seq<Digest>, table: Nodes, nodes: Nodes, key: Key,
                                          current: Digest)
    returns (result: Nodes, last: Key, digest: Digest)
    requires Chain(h, entries, table, nodes, key, current)
    ensures Completions(h, entries, nodes, key, current) == Some(result)
    ensures last.index % 2 == 0 && Chain(h, entries, table, result, last, digest)
    decreases key.index
  {
    if key.index % 2 == 0 {
      result, last, digest := nodes, key, current;
    } else {
      ChainStep(h, entries, table, nodes, key, current);
      var left := Stored(h, entries, nodes, Key(key.level, key.index - 1)).value;
      CompletionsStep(h, entries, nodes, key, current, left);
      var parent, node := Key(key.level + 1, key.index / 2), NodeHash(h, left, current);
      result, last, digest := ChainCompletes(h, entries, table, nodes[parent := node], parent, node);
    }
  }

  /** Appending keeps the index exact: the loop stores the newly completed subtrees and nothing else. */
  lemma AppendIndexes(h: Hash, entries: seq<Digest>, entry: Digest, nodes: Nodes)
    requires Indexed(h, entries, nodes)
    ensures var r := Completions(h, entries + [entry], nodes, Key(0, |entries|), LeafHash(h, entry));
            && r.Some? && Indexed(h, entries + [entry], r.value)
            && forall k :: k in nodes ==> k in r.value && r.value[k] == nodes[k]
  {
    ChainStarts(h, entries, entry, nodes);
    var result, last, digest :=
      ChainCompletes(h, entries + [entry], nodes, nodes, Key(0, |entries|), LeafHash(h, entry));
    ChainEnds(h, entries + [entry], nodes, result, last, digest);
  }

  /** `nodes` is `table` and the subtrees up to `level` that end with the last entry, all true. */
  ghost predicate Growing(h: Hash, entries: seq<Digest>, table: Nodes, nodes: Nodes, level: nat) {
    && (forall key :: key in nodes <==> key in table || (1 <= key.level <= level && End(key) == |entries|))
    && (forall key :: key in table ==> key in nodes && nodes[key] == table[key])
    && (forall key :: key in nodes ==> NodeTrue(h, entries, key, nodes[key]))
  }

  lemma GrowingStep(h: Hash, entries: seq<Digest>, table: Nodes, nodes: Nodes, parent: Key, digest: Digest)
    requires parent.level >= 1 && End(parent) == |entries| && parent !in table
    requires Growing(h, entries, table, nodes, parent.level - 1)
    requires NodeTrue(h, entries, parent, digest)
    ensures Growing(h, entries, table, nodes[parent := digest], parent.level)
  {
    OnlyKeyWithEnd(parent, |entries|);
  }

  lemma OldNodesStayTrue(h: Hash, entries: seq<Digest>, entry: Digest, nodes: Nodes)
    requires Indexed(h, entries, nodes)
    ensures forall key :: key in nodes ==> NodeTrue(h, entries + [entry], key, nodes[key])
  {
    forall key | key in nodes
      ensures NodeTrue(h, entries + [entry], key, nodes[key])
    {
      assert NodeTrue(h, entries, key, nodes[key]);
      var lo, n := Start(key), Pow2(key.level);
      assert (entries + [entry])[lo..lo + n] == entries[lo..lo + n];
      TreeHashFrame(h, entries + [entry], lo, entries, lo, n);
    }
  }

  lemma ParentSpan(parent: Key, child: Key)
    requires child.index % 2 == 1 && parent == Key(child.level + 1, child.index / 2)
    ensures End(parent) == End(child)
  {
    var p := Pow2(child.level);
    assert Pow2(parent.level) == 2 * p;
    assert child.index + 1 == 2 * (parent.index + 1);
    assert (parent.index + 1) * (2 * p) == (2 * (parent.index + 1)) * p;
  }

  /** At one level, only one subtree ends at a given entry. */
  lemma OnlyKeyWithEnd(key: Key, end: nat)
    requires End(key) == end
    ensures forall other: Key :: other.level == key.level && End(other) == end ==> other == key
  {
    forall other: Key | other.level == key.level && End(other) == end
      ensures other == key
    {
      var p := Pow2(key.level);
      if other.index < key.index {
        ScaleStrict(other.index + 1, key.index + 1, p);
      } else if key.index < other.index {
        ScaleStrict(key.index + 1, other.index + 1, p);
      }
    }
  }

  /** Of the subtrees that end at one entry, the one with an even index is the highest. */
  lemma HighestWithEnd(last: Key, end: nat)
    requires End(last) == end && last.index % 2 == 0
    ensures forall key: Key :: End(key) == end ==> key.level <= last.level
  {
    forall key: Key | End(key) == end
      ensures key.level <= last.level
    {
      OddFactor(key.index + 1, key.level, last.index + 1, last.level);
    }
  }

  /** Once every subtree that ends with the last entry is stored, the table is complete. */
  lemma AppendCompletes(h: Hash, entries: seq<Digest>, table: Nodes, nodes: Nodes, level: nat)
    requires |entries| >= 1
    requires forall key :: key in table <==> Completed(key, |entries| - 1)
    requires forall key: Key :: End(key) == |entries| ==> key.level <= level
    requires Growing(h, entries, table, nodes, level)
    ensures Indexed(h, entries, nodes)
  {
  }
}
