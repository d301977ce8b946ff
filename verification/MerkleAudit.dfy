/**
  The audit of the stored Merkle nodes: counts and gaps per level, and every node against its children.
  It accepts exactly the complete and correct index.
*/
module MerkleAudit {
  import opened Basics
  import opened MerkleTree
  import opened MerkleIndex

  /** The number of one bits. */
  function OnesCount(n: nat): nat {
    if n == 0 then 0 else n % 2 + OnesCount(n / 2)
  }

  /** The number of completed subtrees at a level. */
  function WidthAt(n: nat, level: nat): nat {
    if level == 0 then n else WidthAt(n, level - 1) / 2
  }

  function Level(nodes: Nodes, level: nat): set<Key> {
    set key | key in nodes && key.level == level
  }

  /** COUNT(*) is the width and MAX(node_index) is the width less one. */
  predicate Continuous(nodes: Nodes, level: nat, width: nat) {
    && |Level(nodes, level)| == width && width > 0 && Key(level, width - 1) in nodes
    && forall key :: key in Level(nodes, level) ==> key.index <= width - 1
  }

  /** The node is the hash of its two stored children. */
  predicate HashesChildren(h: Hash, entries: seq<Digest>, nodes: Nodes, key: Key)
    requires key in nodes && key.level >= 1
  {
    var left := Stored(h, entries, nodes, Key(key.level - 1, 2 * key.index));
    var right := Stored(h, entries, nodes, Key(key.level - 1, 2 * key.index + 1));
    left.Some? && right.Some? && nodes[key] == NodeHash(h, left.value, right.value)
  }

  ghost predicate LevelsContinuous(n: nat, nodes: Nodes) {
    forall level: nat :: level >= 1 && WidthAt(n, level) > 0 ==> Continuous(nodes, level, WidthAt(n, level))
  }

  ghost predicate Audited(h: Hash, entries: seq<Digest>, nodes: Nodes)
    requires forall key :: key in nodes ==> key.level >= 1
  {
    && |nodes| == |entries| - OnesCount(|entries|) && LevelsContinuous(|entries|, nodes)
    && AllHashChildren(h, entries, nodes)
  }

  ghost predicate AllHashChildren(h: Hash, entries: seq<Digest>, nodes: Nodes) {
    forall key {:trigger HashesChildren(h, entries, nodes, key)} ::
      key in nodes ==> key.level >= 1 && HashesChildren(h, entries, nodes, key)
  }

  // ---------------------------------------------------------------- the completed subtrees as a set

  function Row(level: nat, width: nat): set<Key> {
    set i | 0 <= i < width :: Key(level, i)
  }

  /** The completed subtrees from a level up. */
  function Above(level: nat, width: nat): set<Key>
    decreases width
  {
    if width == 0 then {} else Row(level, width) + Above(level + 1, width / 2)
  }

  lemma {:induction false} RowSize(level: nat, width: nat)
    ensures |Row(level, width)| == width
  {
    if width == 0 {
      assert Row(level, 0) == {};
    } else {
      RowSize(level, width - 1);
      assert Row(level, width) == Row(level, width - 1) + {Key(level, width - 1)};
    }
  }

  function WidthSum(width: nat): nat {
    if width == 0 then 0 else width + WidthSum(width / 2)
  }

  lemma {:induction false} AboveSize(level: nat, width: nat)
    ensures |Above(level, width)| == WidthSum(width)
    ensures forall key :: key in Above(level, width) ==> key.level >= level
    decreases width
  {
    if width > 0 {
      AboveSize(level + 1, width / 2);
      RowSize(level, width);
      assert Row(level, width) !! Above(level + 1, width / 2);
    }
  }

  /** The widths of all levels make up the entries less the one bits of their number. */
  lemma {:induction false} WidthsAreEntriesLessOnes(n: nat)
    ensures WidthSum(n / 2) == n - OnesCount(n)
  {
    if n > 0 {
      WidthsAreEntriesLessOnes(n / 2);
    }
  }

  /** The last entry of a subtree, in units of the level's subtrees. */
  function EndAbove(key: Key, level: nat): nat
    requires key.level >= level
  {
    (key.index + 1) * Pow2(key.level - level)
  }

  lemma DoubleEnd(key: Key, level: nat)
    requires key.level > level
    ensures EndAbove(key, level) == 2 * EndAbove(key, level + 1)
  {
    var p := Pow2(key.level - level - 1);
    assert Pow2(key.level - level) == 2 * p;
    assert (key.index + 1) * (2 * p) == 2 * ((key.index + 1) * p);
  }

  lemma PositiveEnd(key: Key, level: nat)
    requires key.level >= level
    ensures EndAbove(key, level) >= key.index + 1
  {
    assert (key.index + 1) * Pow2(key.level - level) >= (key.index + 1) * 1;
  }

  lemma {:induction false} AboveMembers(level: nat, width: nat, key: Key)
    ensures key in Above(level, width) <==> key.level >= level && EndAbove(key, level) <= width
    decreases width
  {
    if key.level >= level {
      PositiveEnd(key, level);
    }
    if width > 0 {
      AboveMembers(level + 1, width / 2, key);
      if key.level > level {
        DoubleEnd(key, level);
      } else if key.level == level {
        assert Pow2(0) == 1;
      }
    }
  }

  /** The completed subtrees of `n` entries. */
  lemma CompletedIsAbove(n: nat, key: Key)
    ensures key in Above(1, n / 2) <==> Completed(key, n)
  {
    AboveMembers(1, n / 2, key);
    if key.level >= 1 {
      DoubleEnd(key, 0);
    }
  }

  // ---------------------------------------------------------------- levels

  lemma {:induction false} WidthIsRow(n: nat, level: nat, key: Key)
    requires level >= 1 && key.level == level
    ensures Completed(key, n) <==> key.index < WidthAt(n, level)
  {
    WidthHalves(n, level, level, key);
  }

  lemma {:induction false} WidthHalves(n: nat, level: nat, at: nat, key: Key)
    requires at <= level == key.level
    ensures EndAbove(key, 0) <= n <==> EndAbove(key, at) <= WidthAt(n, at)
    decreases at
  {
    if at > 0 {
      WidthHalves(n, level, at - 1, key);
      DoubleEnd(key, at - 1);
    }
  }

  /** A level without gaps holds all its subtrees. */
  lemma ContinuousIsRow(nodes: Nodes, level: nat, width: nat)
    requires Continuous(nodes, level, width)
    ensures Level(nodes, level) == Row(level, width)
  {
    forall key | key in Level(nodes, level)
      ensures key in Row(level, width)
    {
      assert key == Key(level, key.index);
    }
    RowSize(level, width);
    SameSizeSubset(Level(nodes, level), Row(level, width));
  }

  /** The counts and levels fix the keys. */
  lemma AuditedKeys(n: nat, nodes: Nodes)
    requires |nodes| == n - OnesCount(n) && LevelsContinuous(n, nodes)
    ensures nodes.Keys == Above(1, n / 2)
  {
    forall key | key in Above(1, n / 2)
      ensures key in nodes.Keys
    {
      CompletedIsAbove(n, key);
      WidthIsRow(n, key.level, key);
      ContinuousIsRow(nodes, key.level, WidthAt(n, key.level));
      assert key in Row(key.level, WidthAt(n, key.level));
    }
    AboveSize(1, n / 2);
    WidthsAreEntriesLessOnes(n);
    assert |nodes.Keys| == |nodes|;
    SameSizeSubset(Above(1, n / 2), nodes.Keys);
  }

  lemma CompletedKeys(n: nat, nodes: Nodes)
    requires forall key :: key in nodes <==> Completed(key, n)
    ensures |nodes| == n - OnesCount(n) && LevelsContinuous(n, nodes)
  {
    forall key
      ensures key in nodes.Keys <==> key in Above(1, n / 2)
    {
      CompletedIsAbove(n, key);
    }
    assert nodes.Keys == Above(1, n / 2);
    AboveSize(1, n / 2);
    WidthsAreEntriesLessOnes(n);
    assert |nodes.Keys| == |nodes|;
    forall level: nat | level >= 1 && WidthAt(n, level) > 0
      ensures Continuous(nodes, level, WidthAt(n, level))
    {
      CompletedLevel(n, nodes, level);
    }
  }

  lemma CompletedLevel(n: nat, nodes: Nodes, level: nat)
    requires level >= 1 && WidthAt(n, level) > 0 && forall key :: key in nodes <==> Completed(key, n)
    ensures Continuous(nodes, level, WidthAt(n, level))
  {
    var width := WidthAt(n, level);
    forall key
      ensures key in Level(nodes, level) <==> key in Row(level, width)
    {
      if key.level == level {
        WidthIsRow(n, level, key);
        assert key == Key(level, key.index);
      }
    }
    assert Level(nodes, level) == Row(level, width);
    RowSize(level, width);
    assert Key(level, width - 1) in Row(level, width);
  }

  // ---------------------------------------------------------------- hashes

  /** Children that are true make their node true. */
  lemma {:induction false} AuditedIsTrue(h: Hash, entries: seq<Digest>, nodes: Nodes, key: Key)
    requires forall k :: k in nodes <==> Completed(k, |entries|)
    requires AllHashChildren(h, entries, nodes)
    requires key in nodes
    ensures NodeTrue(h, entries, key, nodes[key])
    decreases key.level
  {
    hide NodeTrue, TreeHash, Pow2;
    var l, r := Key(key.level - 1, 2 * key.index), Key(key.level - 1, 2 * key.index + 1);
    assert HashesChildren(h, entries, nodes, key);
    ChildTrue(h, entries, nodes, key, l);
    ChildTrue(h, entries, nodes, key, r);
    if key.level > 1 {
      AuditedIsTrue(h, entries, nodes, l);
      AuditedIsTrue(h, entries, nodes, r);
    }
    AlignedStep(h, entries, key, Stored(h, entries, nodes, l).value, Stored(h, entries, nodes, r).value);
  }

  /** A child of a completed subtree is completed, or is a leaf and true. */
  lemma ChildTrue(h: Hash, entries: seq<Digest>, nodes: Nodes, key: Key, child: Key)
    requires key.level >= 1 && Completed(key, |entries|)
    requires child == Key(key.level - 1, 2 * key.index) || child == Key(key.level - 1, 2 * key.index + 1)
    ensures End(child) <= |entries|
    ensures child.level >= 1 ==> Completed(child, |entries|)
    ensures child.level == 0 ==>
              child.index < |entries| && NodeTrue(h, entries, child, LeafHash(h, entries[child.index]))
  {
    AlignedSpans(key);
    KeySpan(Key(key.level - 1, 2 * key.index));
    KeySpan(Key(key.level - 1, 2 * key.index + 1));
    if child.level == 0 {
      assert Pow2(0) == 1;
    }
  }

  lemma TrueHashesChildren(h: Hash, entries: seq<Digest>, nodes: Nodes, key: Key)
    requires Indexed(h, entries, nodes) && key in nodes && key.level >= 1
    ensures HashesChildren(h, entries, nodes, key)
  {
    var l, r := Key(key.level - 1, 2 * key.index), Key(key.level - 1, 2 * key.index + 1);
    ChildTrue(h, entries, nodes, key, l);
    ChildTrue(h, entries, nodes, key, r);
    StoredIsTrue(h, entries, nodes, l);
    StoredIsTrue(h, entries, nodes, r);
    AlignedStep(h, entries, key, Stored(h, entries, nodes, l).value, Stored(h, entries, nodes, r).value);
  }

  /** The audit accepts exactly the complete index with true hashes. */
  lemma AuditedIffIndexed(h: Hash, entries: seq<Digest>, nodes: Nodes)
    requires forall key :: key in nodes ==> key.level >= 1
    ensures Audited(h, entries, nodes) <==> Indexed(h, entries, nodes)
  {
    if Audited(h, entries, nodes) {
      AuditedKeys(|entries|, nodes);
      forall key
        ensures key in nodes <==> Completed(key, |entries|)
      {
        CompletedIsAbove(|entries|, key);
      }
      forall key | key in nodes
        ensures NodeTrue(h, entries, key, nodes[key])
      {
        AuditedIsTrue(h, entries, nodes, key);
      }
    }
    if Indexed(h, entries, nodes) {
      CompletedKeys(|entries|, nodes);
      forall key | key in nodes
        ensures HashesChildren(h, entries, nodes, key)
      {
        TrueHashesChildren(h, entries, nodes, key);
      }
    }
  }

  lemma {:induction false} WidthStaysZero(n: nat, level: nat, above: nat)
    requires level <= above && WidthAt(n, level) == 0
    ensures WidthAt(n, above) == 0
    decreases above
  {
    if level < above {
      WidthStaysZero(n, level, above - 1);
    }
  }

  /** The audit with its loops over levels and nodes. */
  method VerifyMerkleTree(h: Hash, entries: seq<Digest>, nodes: Nodes) returns (ok: bool)
    requires forall key :: key in nodes ==> key.level >= 1
    ensures ok <==> Indexed(h, entries, nodes)
  {
    AuditedIffIndexed(h, entries, nodes);
    var n := |entries|;
    if |nodes| != n - OnesCount(n) {
      return false;
    }
    var level, width := 1, n / 2;
    while width > 0
      invariant level >= 1 && width == WidthAt(n, level)
      invariant forall l :: 1 <= l < level ==> Continuous(nodes, l, WidthAt(n, l))
      decreases width
    {
      if !Continuous(nodes, level, width) {
        return false;
      }
      level, width := level + 1, width / 2;
    }
    forall l: nat | l >= level
      ensures WidthAt(n, l) == 0
    {
      WidthStaysZero(n, level, l);
    }
    var keys := nodes.Keys;
    while keys != {}
      invariant keys <= nodes.Keys
      invariant forall key {:trigger HashesChildren(h, entries, nodes, key)} ::
                  key in nodes && key !in keys ==> HashesChildren(h, entries, nodes, key)
      decreases |keys|
    {
      var key :| key in keys;
      if !HashesChildren(h, entries, nodes, key) {
        return false;
      }
      keys := keys - {key};
    }
    return true;
  }
}
