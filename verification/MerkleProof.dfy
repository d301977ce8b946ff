/**
  Verification of inclusion and consistency proofs: the rebuild of a root from an
  audit path, with one read cursor shared by the whole recursion.

  `InclusionRoot` and `ConsistencyRoots` say what the recursion computes; the
  methods with a `Cursor` carry it out as the registry's verifier does.
*/
module MerkleProof {
  import opened MerkleTree

  datatype Error =
    | InvalidHead
    | IndexOutsideTree
    | MalformedEntryHash
    | LeafMismatch
    | InvalidSizesOrRoot
    | EmptyTreeMismatch
    | EqualSizeMismatch
    | PathTruncated
    | MalformedAuditHash
    | ExtraAuditNodes
    | RootMismatch

  /** The value read so far and the cursor after it, or the error that stopped the rebuild. */
  datatype Read<+T> = Ok(value: T, position: nat) | Err(error: Error)

  datatype Verdict = Accepted | Rejected(error: Error)

  datatype Roots = Roots(before: Digest, after: Digest)

  /** A hash as a proof carries it: the text of a canonical digest, or any other text. */
  datatype Text = Canonical(digest: Digest) | Malformed

  /** A tree head; `signed` is the outcome of the version, scope, key and signature checks. */
  datatype TreeHead = TreeHead(signed: bool, treeSize: int, rootHash: Text)

  datatype InclusionProof = InclusionProof(
    ledgerIndex: int, entryHash: Text, leafHash: Text, auditPath: seq<Text>, head: TreeHead)

  datatype ConsistencyProof = ConsistencyProof(
    oldTreeSize: int, oldRootHash: Text, auditPath: seq<Text>, head: TreeHead)

  predicate IsDigest(t: Text) { t.Canonical? }

  /** A path as a proof carries it. */
  function Texts(p: seq<Digest>): (t: seq<Text>)
    ensures |t| == |p| && forall i :: 0 <= i < |p| ==> t[i] == Canonical(p[i])
  {
    seq(|p|, i requires 0 <= i < |p| => Canonical(p[i]))
  }

  predicate HeadOk(head: TreeHead) {
    head.signed && head.treeSize >= 0 && IsDigest(head.rootHash)
  }

  // ---------------------------------------------------------------- the split loop

  const TWO_62: int := 0x4000_0000_0000_0000
  const TWO_63: int := 0x8000_0000_0000_0000
  const TWO_64: int := 0x1_0000_0000_0000_0000

  newtype int64 = x: int | -TWO_63 <= x < TWO_63

  /** `power << 1` on a 64-bit signed integer, wrapping around. */
  function ShiftLeftOne(power: int64): (r: int64)
    ensures -TWO_62 <= power as int < TWO_62 ==> r as int == 2 * power as int
  {
    var w := (2 * power as int) % TWO_64;
    (if w >= TWO_63 then w - TWO_64 else w) as int64
  }

  /** The split loop, with the shift that can wrap. */
  method LargestPowerOfTwoLessThan(value: int64) returns (power: int64)
    requires value as int <= TWO_62
    ensures value >= 2 ==> power as int == Split(value as nat)
    ensures value < 2 ==> power == 1
  {
    power := 1;
    ghost var e := 0;
    while ShiftLeftOne(power) < value
      invariant power as int == Pow2(e)
      invariant power == 1 || power < value
      decreases value as int - power as int
    {
      power, e := ShiftLeftOne(power), e + 1;
    }
    if value >= 2 {
      SplitUnique(value as nat, e);
    }
  }

  /** The loop variable after `k` rounds of the body. */
  function PowerAfter(k: nat): int64 {
    if k == 0 then 1 else ShiftLeftOne(PowerAfter(k - 1))
  }

  lemma {:induction false} Pow2Sum(a: nat, b: nat)
    ensures Pow2(a + b) == Pow2(a) * Pow2(b)
    decreases a
  {
    if a > 0 {
      Pow2Sum(a - 1, b);
      assert Pow2(a + b) == 2 * Pow2(a - 1 + b);
    }
  }

  lemma Pow2Of62()
    ensures Pow2(62) == TWO_62
  {
    assert Pow2(7) == 128 && Pow2(8) == 256;
    Pow2Sum(8, 8);
    Pow2Sum(7, 8);
    Pow2Sum(16, 16);
    Pow2Sum(15, 16);
    Pow2Sum(31, 31);
    assert Pow2(16) == 0x1_0000 && Pow2(15) == 0x8000;
    assert Pow2(31) == 0x8000_0000;
  }

  lemma {:induction false} PowerBeforeWrap(k: nat, w: nat)
    requires k <= w && Pow2(w) == TWO_62
    ensures PowerAfter(k) as int == Pow2(k)
  {
    if k > 0 {
      PowerBeforeWrap(k - 1, w);
      Pow2Monotone(k - 1, w);
    }
  }

  lemma {:induction false} PowerAfterWrap(k: nat, w: nat)
    requires k > w && Pow2(w) == TWO_62
    ensures PowerAfter(k) as int == if k == w + 1 then -TWO_63 else 0
    decreases k
  {
    if k == w + 1 {
      PowerBeforeWrap(w, w);
    } else {
      PowerAfterWrap(k - 1, w);
    }
  }

  /** Some round finds the loop guard false. */
  ghost predicate SplitLoopStops(value: int64) {
    exists k: nat :: !(ShiftLeftOne(PowerAfter(k)) < value)
  }

  /** The split loop ends exactly for values up to 2^62; above that the shift wraps to 0 for good. */
  lemma SplitLoopStopsIff(value: int64)
    ensures SplitLoopStops(value) <==> value as int <= TWO_62
  {
    Pow2Of62();
    var w: nat :| Pow2(w) == TWO_62;
    if value as int <= TWO_62 {
      PowerBeforeWrap(w, w);
      assert PowerAfter(w) == ShiftLeftOne(PowerAfter(w - 1));
    } else {
      forall k: nat
        ensures ShiftLeftOne(PowerAfter(k)) < value
      {
        assert PowerAfter(k + 1) == ShiftLeftOne(PowerAfter(k));
        if k + 1 <= w {
          PowerBeforeWrap(k + 1, w);
          if k + 1 < w {
            Pow2Monotone(k + 1, w);
          }
        } else {
          PowerAfterWrap(k + 1, w);
        }
      }
    }
  }

  // ---------------------------------------------------------------- what the rebuild computes

  function NextAuditHash(path: seq<Text>, position: nat): Read<Digest> {
    if position >= |path| then Err(PathTruncated)
    else if !IsDigest(path[position]) then Err(MalformedAuditHash)
    else Ok(path[position].digest, position + 1)
  }

  ghost function InclusionRoot(h: Hash, start: nat, size: nat, target: nat, leaf: Digest,
                         path: seq<Text>, position: nat): Read<Digest>
    requires start <= target < start + size
    decreases |path|, size
  {
    if size == 1 then Ok(leaf, position)
    else
      var split := Split(size);
      if target < start + split then
        match InclusionRoot(h, start, split, target, leaf, path, position)
        case Err(e) => Err(e)
        case Ok(left, p) =>
          match NextAuditHash(path, p)
          case Err(e) => Err(e)
          case Ok(right, q) => Ok(NodeHash(h, left, right), q)
      else
        match InclusionRoot(h, start + split, size - split, target, leaf, path, position)
        case Err(e) => Err(e)
        case Ok(right, p) =>
          match NextAuditHash(path, p)
          case Err(e) => Err(e)
          case Ok(left, q) => Ok(NodeHash(h, left, right), q)
  }

  ghost function ConsistencyRoots(h: Hash, oldSize: nat, newSize: nat, useKnown: bool, known: Digest,
                            path: seq<Text>, position: nat): Read<Roots>
    requires 1 <= oldSize <= newSize
    decreases |path|, newSize
  {
    if oldSize == newSize then
      if useKnown then Ok(Roots(known, known), position)
      else
        match NextAuditHash(path, position)
        case Err(e) => Err(e)
        case Ok(root, p) => Ok(Roots(root, root), p)
    else
      var split := Split(newSize);
      if oldSize <= split then
        match ConsistencyRoots(h, oldSize, split, useKnown, known, path, position)
        case Err(e) => Err(e)
        case Ok(left, p) =>
          match NextAuditHash(path, p)
          case Err(e) => Err(e)
          case Ok(right, q) => Ok(Roots(left.before, NodeHash(h, left.after, right)), q)
      else
        match ConsistencyRoots(h, oldSize - split, newSize - split, false, known, path, position)
        case Err(e) => Err(e)
        case Ok(right, p) =>
          match NextAuditHash(path, p)
          case Err(e) => Err(e)
          case Ok(left, q) => Ok(Roots(NodeHash(h, left, right.before), NodeHash(h, left, right.after)), q)
  }

  ghost function InclusionVerdict(h: Hash, proof: InclusionProof): Verdict {
    if !HeadOk(proof.head) then Rejected(InvalidHead)
    else if proof.ledgerIndex < 1 || proof.ledgerIndex > proof.head.treeSize then Rejected(IndexOutsideTree)
    else if !IsDigest(proof.entryHash) then Rejected(MalformedEntryHash)
    else if Canonical(LeafHash(h, proof.entryHash.digest)) != proof.leafHash then Rejected(LeafMismatch)
    else
      match InclusionRoot(h, 0, proof.head.treeSize, proof.ledgerIndex - 1, proof.leafHash.digest, proof.auditPath, 0)
      case Err(e) => Rejected(e)
      case Ok(root, position) =>
        if position != |proof.auditPath| then Rejected(ExtraAuditNodes)
        else if Canonical(root) != proof.head.rootHash then Rejected(RootMismatch)
        else Accepted
  }

  ghost function ConsistencyVerdict(h: Hash, proof: ConsistencyProof): Verdict {
    if !HeadOk(proof.head) then Rejected(InvalidHead)
    else if proof.oldTreeSize < 0 || proof.oldTreeSize > proof.head.treeSize || !IsDigest(proof.oldRootHash) then
      Rejected(InvalidSizesOrRoot)
    else if proof.oldTreeSize == 0 then
      if proof.oldRootHash != Canonical(EmptyRoot(h)) || |proof.auditPath| != 0 then Rejected(EmptyTreeMismatch)
      else Accepted
    else if proof.oldTreeSize == proof.head.treeSize then
      if proof.oldRootHash != proof.head.rootHash || |proof.auditPath| != 0 then Rejected(EqualSizeMismatch)
      else Accepted
    else
      match ConsistencyRoots(h, proof.oldTreeSize, proof.head.treeSize, true, proof.oldRootHash.digest,
                             proof.auditPath, 0)
      case Err(e) => Rejected(e)
      case Ok(roots, position) =>
        if position != |proof.auditPath| then Rejected(ExtraAuditNodes)
        else if Canonical(roots.before) != proof.oldRootHash || Canonical(roots.after) != proof.head.rootHash then
          Rejected(RootMismatch)
        else Accepted
  }

  // ---------------------------------------------------------------- the recursion with its cursor

  /** The read position that every level of the recursion shares. */
  class Cursor {
    var position: nat

    constructor ()
      ensures position == 0
    {
      position := 0;
    }
  }

  datatype Result<+T> = Success(value: T) | Failure(error: Error)

  /** A result and a cursor agree with what the specification reads. */
  ghost predicate Reads<T>(r: Result<T>, spec: Read<T>, position: nat) {
    match spec
    case Err(e) => r == Failure(e)
    case Ok(v, p) => r == Success(v) && position == p
  }

  method TakeAuditHash(path: seq<Text>, cursor: Cursor) returns (r: Result<Digest>)
    modifies cursor
    ensures Reads(r, NextAuditHash(path, old(cursor.position)), cursor.position)
  {
    if cursor.position >= |path| {
      return Failure(PathTruncated);
    }
    var value := path[cursor.position];
    cursor.position := cursor.position + 1;
    if !IsDigest(value) {
      return Failure(MalformedAuditHash);
    }
    return Success(value.digest);
  }

  method RebuildInclusionRoot(h: Hash, start: nat, size: nat, target: nat, leaf: Digest,
                              path: seq<Text>, cursor: Cursor) returns (r: Result<Digest>)
    requires start <= target < start + size && size <= TWO_62
    modifies cursor
    ensures Reads(r, InclusionRoot(h, start, size, target, leaf, path, old(cursor.position)), cursor.position)
    decreases size
  {
    if size == 1 {
      return Success(leaf);
    }
    var power := LargestPowerOfTwoLessThan(size as int64);
    var split := power as nat;
    if target < start + split {
      var left := RebuildInclusionRoot(h, start, split, target, leaf, path, cursor);
      if left.Failure? { return left; }
      var right := TakeAuditHash(path, cursor);
      if right.Failure? { return right; }
      return Success(NodeHash(h, left.value, right.value));
    }
    var right := RebuildInclusionRoot(h, start + split, size - split, target, leaf, path, cursor);
    if right.Failure? { return right; }
    var left := TakeAuditHash(path, cursor);
    if left.Failure? { return left; }
    return Success(NodeHash(h, left.value, right.value));
  }

  method RebuildConsistencyRoots(h: Hash, oldSize: nat, newSize: nat, useKnown: bool, known: Digest,
                                 path: seq<Text>, cursor: Cursor) returns (r: Result<Roots>)
    requires 1 <= oldSize <= newSize <= TWO_62
    modifies cursor
    ensures Reads(r, ConsistencyRoots(h, oldSize, newSize, useKnown, known, path, old(cursor.position)),
                  cursor.position)
    decreases newSize
  {
    if oldSize == newSize {
      if useKnown {
        return Success(Roots(known, known));
      }
      var root := TakeAuditHash(path, cursor);
      if root.Failure? { return Failure(root.error); }
      return Success(Roots(root.value, root.value));
    }
    var power := LargestPowerOfTwoLessThan(newSize as int64);
    var split := power as nat;
    if oldSize <= split {
      var left := RebuildConsistencyRoots(h, oldSize, split, useKnown, known, path, cursor);
      if left.Failure? { return left; }
      var right := TakeAuditHash(path, cursor);
      if right.Failure? { return Failure(right.error); }
      return Success(Roots(left.value.before, NodeHash(h, left.value.after, right.value)));
    }
    var right := RebuildConsistencyRoots(h, oldSize - split, newSize - split, false, known, path, cursor);
    if right.Failure? { return right; }
    var left := TakeAuditHash(path, cursor);
    if left.Failure? { return Failure(left.error); }
    return Success(Roots(NodeHash(h, left.value, right.value.before), NodeHash(h, left.value, right.value.after)));
  }

  /** The proof passes the checks before the root is rebuilt. */
  predicate RebuildsInclusion(h: Hash, proof: InclusionProof) {
    && HeadOk(proof.head) && 1 <= proof.ledgerIndex <= proof.head.treeSize && IsDigest(proof.entryHash)
    && Canonical(LeafHash(h, proof.entryHash.digest)) == proof.leafHash
  }

  predicate RebuildsConsistency(proof: ConsistencyProof) {
    HeadOk(proof.head) && 0 < proof.oldTreeSize < proof.head.treeSize && IsDigest(proof.oldRootHash)
  }

  /** Every proof but those whose rebuild would start a split loop that never ends. */
  method VerifyInclusionProof(h: Hash, proof: InclusionProof) returns (r: Verdict)
    requires RebuildsInclusion(h, proof) ==> proof.head.treeSize <= TWO_62
    ensures r == InclusionVerdict(h, proof)
  {
    if !HeadOk(proof.head) {
      return Rejected(InvalidHead);
    }
    if proof.ledgerIndex < 1 || proof.ledgerIndex > proof.head.treeSize {
      return Rejected(IndexOutsideTree);
    }
    if !IsDigest(proof.entryHash) {
      return Rejected(MalformedEntryHash);
    }
    if Canonical(LeafHash(h, proof.entryHash.digest)) != proof.leafHash {
      return Rejected(LeafMismatch);
    }
    var cursor := new Cursor();
    var root := RebuildInclusionRoot(
      h, 0, proof.head.treeSize, proof.ledgerIndex - 1, proof.leafHash.digest, proof.auditPath, cursor);
    if root.Failure? {
      return Rejected(root.error);
    }
    if cursor.position != |proof.auditPath| {
      return Rejected(ExtraAuditNodes);
    }
    if Canonical(root.value) != proof.head.rootHash {
      return Rejected(RootMismatch);
    }
    return Accepted;
  }

  method VerifyConsistencyProof(h: Hash, proof: ConsistencyProof) returns (r: Verdict)
    requires RebuildsConsistency(proof) ==> proof.head.treeSize <= TWO_62
    ensures r == ConsistencyVerdict(h, proof)
  {
    if !HeadOk(proof.head) {
      return Rejected(InvalidHead);
    }
    if proof.oldTreeSize < 0 || proof.oldTreeSize > proof.head.treeSize || !IsDigest(proof.oldRootHash) {
      return Rejected(InvalidSizesOrRoot);
    }
    if proof.oldTreeSize == 0 {
      if proof.oldRootHash != Canonical(EmptyRoot(h)) || |proof.auditPath| != 0 {
        return Rejected(EmptyTreeMismatch);
      }
      return Accepted;
    }
    if proof.oldTreeSize == proof.head.treeSize {
      if proof.oldRootHash != proof.head.rootHash || |proof.auditPath| != 0 {
        return Rejected(EqualSizeMismatch);
      }
      return Accepted;
    }
    var cursor := new Cursor();
    var roots := RebuildConsistencyRoots(
      h, proof.oldTreeSize, proof.head.treeSize, true, proof.oldRootHash.digest, proof.auditPath, cursor);
    if roots.Failure? {
      return Rejected(roots.error);
    }
    if cursor.position != |proof.auditPath| {
      return Rejected(ExtraAuditNodes);
    }
    if Canonical(roots.value.before) != proof.oldRootHash || Canonical(roots.value.after) != proof.head.rootHash {
      return Rejected(RootMismatch);
    }
    return Accepted;
  }

  // ---------------------------------------------------------------- soundness

  /** At every level the rebuilt node and the node of the true tree are no collision. */
  ghost predicate InclusionSeparated(h: Hash, d: seq<Digest>, lo: nat, n: nat, target: nat, leaf: Digest,
                                     path: seq<Text>, position: nat)
    requires lo <= target < lo + n && lo + n <= |d|
    decreases |path|, n
  {
    n > 1 ==>
      var k := Split(n);
      var node := NodeMessage(TreeHash(h, d, lo, k), TreeHash(h, d, lo + k, n - k));
      if target < lo + k then
        && InclusionSeparated(h, d, lo, k, target, leaf, path, position)
        && var left := InclusionRoot(h, lo, k, target, leaf, path, position);
           left.Ok? ==>
             var right := NextAuditHash(path, left.position);
             right.Ok? ==> Separated(h, NodeMessage(left.value, right.value), node)
      else
        && InclusionSeparated(h, d, lo + k, n - k, target, leaf, path, position)
        && var right := InclusionRoot(h, lo + k, n - k, target, leaf, path, position);
           right.Ok? ==>
             var left := NextAuditHash(path, right.position);
             left.Ok? ==> Separated(h, NodeMessage(left.value, right.value), node)
  }

  /** `path` holds exactly `p` from `position` up to `end`. */
  ghost predicate Holds(path: seq<Text>, position: nat, end: nat, p: seq<Digest>) {
    end == position + |p| <= |path| && forall i :: 0 <= i < |p| ==> path[position + i] == Canonical(p[i])
  }

  lemma HoldsNext(path: seq<Text>, position: nat, end: nat, p: seq<Digest>, x: Digest)
    requires Holds(path, position, end, p)
    requires end < |path| && path[end] == Canonical(x)
    ensures Holds(path, position, end + 1, p + [x])
  {
  }

  lemma {:induction false} InclusionRootSound(h: Hash, d: seq<Digest>, lo: nat, n: nat, target: nat, leaf: Digest,
                                              path: seq<Text>, position: nat, r: Read<Digest>, p: seq<Digest>)
    requires lo <= target < lo + n <= |d| && position <= |path|
    requires r == InclusionRoot(h, lo, n, target, leaf, path, position)
    requires r.Ok? && r.value == TreeHash(h, d, lo, n)
    requires InclusionSeparated(h, d, lo, n, target, leaf, path, position)
    requires p == InclusionPath(h, d, lo, n, target)
    ensures leaf == LeafHash(h, d[target])
    ensures Holds(path, position, r.position, p)
    decreases n
  {
    if n > 1 {
      var k := Split(n);
      if target < lo + k {
        var left := InclusionRoot(h, lo, k, target, leaf, path, position);
        var right := NextAuditHash(path, left.position);
        var q := InclusionPath(h, d, lo, k, target);
        InclusionRootSound(h, d, lo, k, target, leaf, path, position, left, q);
        HoldsNext(path, position, left.position, q, right.value);
      } else {
        var right := InclusionRoot(h, lo + k, n - k, target, leaf, path, position);
        var left := NextAuditHash(path, right.position);
        var q := InclusionPath(h, d, lo + k, n - k, target);
        InclusionRootSound(h, d, lo + k, n - k, target, leaf, path, position, right, q);
        HoldsNext(path, position, right.position, q, left.value);
      }
    }
  }

  /** No collision between what an inclusion proof hashes and the nodes of the true tree on its path. */
  ghost predicate ProofSeparated(h: Hash, d: seq<Digest>, proof: InclusionProof)
    requires InclusionVerdict(h, proof).Accepted? && proof.head.treeSize == |d|
  {
    && InclusionSeparated(h, d, 0, |d|, proof.ledgerIndex - 1, proof.leafHash.digest, proof.auditPath, 0)
    && Separated(h, LeafMessage(proof.entryHash.digest), LeafMessage(d[proof.ledgerIndex - 1]))
  }

  /**
    An inclusion proof accepted against the true root of a ledger is for the entry at that index, and
    its path is the one path of section 2.1.3.1 of RFC 9162: no node is missing, extra or altered.
  */
  lemma InclusionSound(h: Hash, d: seq<Digest>, proof: InclusionProof)
    requires InclusionVerdict(h, proof).Accepted?
    requires proof.head.treeSize == |d| && proof.head.rootHash == Canonical(TreeHash(h, d, 0, |d|))
    requires ProofSeparated(h, d, proof)
    ensures proof.entryHash == Canonical(d[proof.ledgerIndex - 1])
    ensures proof.auditPath == Texts(InclusionPath(h, d, 0, |d|, proof.ledgerIndex - 1))
  {
    var i := proof.ledgerIndex - 1;
    InclusionRootSound(h, d, 0, |d|, i, proof.leafHash.digest, proof.auditPath, 0,
                       InclusionRoot(h, 0, |d|, i, proof.leafHash.digest, proof.auditPath, 0),
                       InclusionPath(h, d, 0, |d|, i));
  }

  /** At every level the node rebuilt for the new root and the node of the true tree are no collision. */
  ghost predicate ConsistencySeparated(h: Hash, d: seq<Digest>, lo: nat, n: nat, m: nat, useKnown: bool,
                                       known: Digest, path: seq<Text>, position: nat)
    requires 1 <= m <= n && lo + n <= |d|
    decreases |path|, n
  {
    m < n ==>
      var k := Split(n);
      var node := NodeMessage(TreeHash(h, d, lo, k), TreeHash(h, d, lo + k, n - k));
      if m <= k then
        && ConsistencySeparated(h, d, lo, k, m, useKnown, known, path, position)
        && var left := ConsistencyRoots(h, m, k, useKnown, known, path, position);
           left.Ok? ==>
             var right := NextAuditHash(path, left.position);
             right.Ok? ==> Separated(h, NodeMessage(left.value.after, right.value), node)
      else
        && ConsistencySeparated(h, d, lo + k, n - k, m - k, false, known, path, position)
        && var right := ConsistencyRoots(h, m - k, n - k, false, known, path, position);
           right.Ok? ==>
             var left := NextAuditHash(path, right.position);
             left.Ok? ==> Separated(h, NodeMessage(left.value, right.value.after), node)
  }

  /** One node down: a rebuilt new root equal to the true one was built from the roots of the true halves. */
  lemma ConsistencyDown(h: Hash, d: seq<Digest>, lo: nat, n: nat, m: nat, useKnown: bool, known: Digest,
                        path: seq<Text>, position: nat, r: Read<Roots>)
    requires 1 <= m < n && lo + n <= |d| && position <= |path|
    requires r == ConsistencyRoots(h, m, n, useKnown, known, path, position)
    requires r.Ok? && r.value.after == TreeHash(h, d, lo, n)
    requires ConsistencySeparated(h, d, lo, n, m, useKnown, known, path, position)
    ensures var k := Split(n);
            if m <= k then
              var below := ConsistencyRoots(h, m, k, useKnown, known, path, position);
              && below.Ok? && below.value.after == TreeHash(h, d, lo, k)
              && ConsistencySeparated(h, d, lo, k, m, useKnown, known, path, position)
              && NextAuditHash(path, below.position) == Ok(TreeHash(h, d, lo + k, n - k), r.position)
              && r.value.before == below.value.before
            else
              var below := ConsistencyRoots(h, m - k, n - k, false, known, path, position);
              && below.Ok? && below.value.after == TreeHash(h, d, lo + k, n - k)
              && ConsistencySeparated(h, d, lo + k, n - k, m - k, false, known, path, position)
              && NextAuditHash(path, below.position) == Ok(TreeHash(h, d, lo, k), r.position)
              && r.value.before == NodeHash(h, TreeHash(h, d, lo, k), below.value.before)
  {
  }

  lemma SubProofUnfolds(h: Hash, d: seq<Digest>, lo: nat, n: nat, m: nat, useKnown: bool, k: nat)
    requires 1 <= m < n && lo + n <= |d| && k == Split(n)
    ensures SubProof(h, d, lo, n, m, useKnown)
            == if m <= k then SubProof(h, d, lo, k, m, useKnown) + [TreeHash(h, d, lo + k, n - k)]
               else SubProof(h, d, lo + k, n - k, m - k, false) + [TreeHash(h, d, lo, k)]
  {
  }

  lemma SubProofExtends(h: Hash, d: seq<Digest>, lo: nat, n: nat, m: nat, useKnown: bool,
                        path: seq<Text>, position: nat, end: nat)
    requires 1 <= m < n && lo + n <= |d|
    requires m <= Split(n) ==>
               && Holds(path, position, end, SubProof(h, d, lo, Split(n), m, useKnown))
               && NextAuditHash(path, end) == Ok(TreeHash(h, d, lo + Split(n), n - Split(n)), end + 1)
    requires m > Split(n) ==>
               && Holds(path, position, end, SubProof(h, d, lo + Split(n), n - Split(n), m - Split(n), false))
               && NextAuditHash(path, end) == Ok(TreeHash(h, d, lo, Split(n)), end + 1)
    ensures Holds(path, position, end + 1, SubProof(h, d, lo, n, m, useKnown))
  {
    hide SubProof, TreeHash, Holds;
    var k := Split(n);
    SubProofUnfolds(h, d, lo, n, m, useKnown, k);
    if m <= k {
      HoldsNext(path, position, end, SubProof(h, d, lo, k, m, useKnown), TreeHash(h, d, lo + k, n - k));
    } else {
      HoldsNext(path, position, end, SubProof(h, d, lo + k, n - k, m - k, false), TreeHash(h, d, lo, k));
    }
  }

  /** Equal sizes: the known root, or the one that is read, is the whole tree's. */
  lemma ConsistencyRootsOfWhole(h: Hash, d: seq<Digest>, lo: nat, n: nat, useKnown: bool, known: Digest,
                                path: seq<Text>, position: nat, r: Read<Roots>)
    requires 1 <= n && lo + n <= |d| && position <= |path|
    requires r == ConsistencyRoots(h, n, n, useKnown, known, path, position)
    requires r.Ok? && r.value.after == TreeHash(h, d, lo, n)
    ensures r.value.before == TreeHash(h, d, lo, n)
    ensures Holds(path, position, r.position, SubProof(h, d, lo, n, n, useKnown))
  {
    hide TreeHash;
  }

  lemma {:induction false} ConsistencyRootsSound(h: Hash, d: seq<Digest>, lo: nat, n: nat, m: nat, useKnown: bool,
                                                 known: Digest, path: seq<Text>, position: nat, r: Read<Roots>)
    requires 1 <= m <= n && lo + n <= |d| && position <= |path|
    requires r == ConsistencyRoots(h, m, n, useKnown, known, path, position)
    requires r.Ok? && r.value.after == TreeHash(h, d, lo, n)
    requires ConsistencySeparated(h, d, lo, n, m, useKnown, known, path, position)
    ensures r.value.before == TreeHash(h, d, lo, m)
    ensures Holds(path, position, r.position, SubProof(h, d, lo, n, m, useKnown))
    decreases n
  {
    hide ConsistencyRoots, TreeHash, SubProof, Holds;
    if m < n {
      var k := Split(n);
      ConsistencyDown(h, d, lo, n, m, useKnown, known, path, position, r);
      if m <= k {
        var below := ConsistencyRoots(h, m, k, useKnown, known, path, position);
        ConsistencyRootsSound(h, d, lo, k, m, useKnown, known, path, position, below);
        SubProofExtends(h, d, lo, n, m, useKnown, path, position, below.position);
      } else {
        var below := ConsistencyRoots(h, m - k, n - k, false, known, path, position);
        ConsistencyRootsSound(h, d, lo + k, n - k, m - k, false, known, path, position, below);
        SubProofExtends(h, d, lo, n, m, useKnown, path, position, below.position);
        PrefixStep(h, d, lo, n, m);
      }
    } else {
      ConsistencyRootsOfWhole(h, d, lo, n, useKnown, known, path, position, r);
    }
  }

  /**
    A consistency proof accepted against the true root of a ledger fixes the old root as the Merkle Tree
    Hash of that ledger's first entries, and its path as the one of section 2.1.4.1 of RFC 9162.
  */
  lemma ConsistencySound(h: Hash, d: seq<Digest>, proof: ConsistencyProof)
    requires ConsistencyVerdict(h, proof).Accepted?
    requires proof.head.treeSize == |d| && proof.head.rootHash == Canonical(TreeHash(h, d, 0, |d|))
    requires proof.oldTreeSize == 0
             || ConsistencySeparated(h, d, 0, |d|, proof.oldTreeSize, true, proof.oldRootHash.digest,
                                     proof.auditPath, 0)
    ensures proof.oldRootHash == Canonical(TreeHash(h, d, 0, proof.oldTreeSize))
    ensures proof.auditPath
            == if proof.oldTreeSize == 0 then [] else Texts(SubProof(h, d, 0, |d|, proof.oldTreeSize, true))
  {
    if 0 < proof.oldTreeSize < |d| {
      ConsistencyRootsSound(
        h, d, 0, |d|, proof.oldTreeSize, true, proof.oldRootHash.digest, proof.auditPath, 0,
        ConsistencyRoots(h, proof.oldTreeSize, |d|, true, proof.oldRootHash.digest, proof.auditPath, 0));
    }
  }

  // ---------------------------------------------------------------- completeness

  lemma HoldsInit(path: seq<Text>, position: nat, end: nat, p: seq<Digest>, x: Digest)
    requires Holds(path, position, end, p + [x])
    ensures Holds(path, position, end - 1, p)
    ensures NextAuditHash(path, end - 1) == Ok(x, end)
  {
    assert (p + [x])[|p|] == x;
    forall i | 0 <= i < |p|
      ensures path[position + i] == Canonical(p[i])
    {
      assert (p + [x])[i] == p[i];
    }
  }

  /** The path into a range ends with the root of the half that does not hold the target. */
  lemma InclusionPathHolds(h: Hash, d: seq<Digest>, lo: nat, n: nat, target: nat,
                           path: seq<Text>, position: nat, end: nat)
    requires lo <= target < lo + n <= |d| && n >= 2
    requires Holds(path, position, end, InclusionPath(h, d, lo, n, target))
    ensures end > 0
    ensures target < lo + Split(n) ==>
              && Holds(path, position, end - 1, InclusionPath(h, d, lo, Split(n), target))
              && NextAuditHash(path, end - 1) == Ok(TreeHash(h, d, lo + Split(n), n - Split(n)), end)
    ensures target >= lo + Split(n) ==>
              && Holds(path, position, end - 1, InclusionPath(h, d, lo + Split(n), n - Split(n), target))
              && NextAuditHash(path, end - 1) == Ok(TreeHash(h, d, lo, Split(n)), end)
  {
    var k := Split(n);
    if target < lo + k {
      HoldsInit(path, position, end, InclusionPath(h, d, lo, k, target), TreeHash(h, d, lo + k, n - k));
    } else {
      HoldsInit(path, position, end, InclusionPath(h, d, lo + k, n - k, target), TreeHash(h, d, lo, k));
    }
  }

  /** The rebuild of a range is complete if the rebuild of the half with the target is. */
  lemma InclusionRootStep(h: Hash, d: seq<Digest>, lo: nat, n: nat, target: nat, leaf: Digest,
                          path: seq<Text>, position: nat, end: nat)
    requires lo <= target < lo + n <= |d| && n >= 2 && end > 0
    requires target < lo + Split(n) ==>
               && InclusionRoot(h, lo, Split(n), target, leaf, path, position)
                  == Ok(TreeHash(h, d, lo, Split(n)), end - 1)
               && NextAuditHash(path, end - 1) == Ok(TreeHash(h, d, lo + Split(n), n - Split(n)), end)
    requires target >= lo + Split(n) ==>
               && InclusionRoot(h, lo + Split(n), n - Split(n), target, leaf, path, position)
                  == Ok(TreeHash(h, d, lo + Split(n), n - Split(n)), end - 1)
               && NextAuditHash(path, end - 1) == Ok(TreeHash(h, d, lo, Split(n)), end)
    ensures InclusionRoot(h, lo, n, target, leaf, path, position) == Ok(TreeHash(h, d, lo, n), end)
  {
  }

  lemma {:induction false} InclusionRootComplete(h: Hash, d: seq<Digest>, lo: nat, n: nat, target: nat,
                                                 path: seq<Text>, position: nat, end: nat)
    requires lo <= target < lo + n <= |d|
    requires Holds(path, position, end, InclusionPath(h, d, lo, n, target))
    ensures InclusionRoot(h, lo, n, target, LeafHash(h, d[target]), path, position) == Ok(TreeHash(h, d, lo, n), end)
    decreases n
  {
    if n > 1 {
      var k := Split(n);
      InclusionPathHolds(h, d, lo, n, target, path, position, end);
      if target < lo + k {
        InclusionRootComplete(h, d, lo, k, target, path, position, end - 1);
      } else {
        InclusionRootComplete(h, d, lo + k, n - k, target, path, position, end - 1);
      }
      InclusionRootStep(h, d, lo, n, target, LeafHash(h, d[target]), path, position, end);
    }
  }

  /** The path of section 2.1.3.1 of RFC 9162 is accepted and consumed to its end. */
  lemma InclusionComplete(h: Hash, d: seq<Digest>, n: nat, i: nat)
    requires i < n <= |d|
    ensures InclusionVerdict(h, InclusionProof(
              i + 1, Canonical(d[i]), Canonical(LeafHash(h, d[i])), Texts(InclusionPath(h, d, 0, n, i)),
              TreeHead(true, n, Canonical(TreeHash(h, d, 0, n))))) == Accepted
  {
    var path := Texts(InclusionPath(h, d, 0, n, i));
    InclusionRootComplete(h, d, 0, n, i, path, 0, |path|);
  }

  /** The proof of a range ends with the root of the half that the old size does not cut. */
  lemma SubProofHolds(h: Hash, d: seq<Digest>, lo: nat, n: nat, m: nat, useKnown: bool,
                      path: seq<Text>, position: nat, end: nat)
    requires 1 <= m < n && lo + n <= |d|
    requires Holds(path, position, end, SubProof(h, d, lo, n, m, useKnown))
    ensures end > 0
    ensures m <= Split(n) ==>
              && Holds(path, position, end - 1, SubProof(h, d, lo, Split(n), m, useKnown))
              && NextAuditHash(path, end - 1) == Ok(TreeHash(h, d, lo + Split(n), n - Split(n)), end)
    ensures m > Split(n) ==>
              && Holds(path, position, end - 1, SubProof(h, d, lo + Split(n), n - Split(n), m - Split(n), false))
              && NextAuditHash(path, end - 1) == Ok(TreeHash(h, d, lo, Split(n)), end)
  {
    var k := Split(n);
    if m <= k {
      HoldsInit(path, position, end, SubProof(h, d, lo, k, m, useKnown), TreeHash(h, d, lo + k, n - k));
    } else {
      HoldsInit(path, position, end, SubProof(h, d, lo + k, n - k, m - k, false), TreeHash(h, d, lo, k));
    }
  }

  /** The two roots of a range and of its first `m` entries. */
  ghost function RootsOf(h: Hash, d: seq<Digest>, lo: nat, n: nat, m: nat): Roots
    requires m <= n && lo + n <= |d|
  {
    Roots(TreeHash(h, d, lo, m), TreeHash(h, d, lo, n))
  }

  /** The rebuild of a range is complete if the rebuild of the half that the old size cuts is. */
  lemma ConsistencyRootsStep(h: Hash, d: seq<Digest>, lo: nat, n: nat, m: nat, useKnown: bool, known: Digest,
                             path: seq<Text>, position: nat, end: nat)
    requires 1 <= m < n && lo + n <= |d| && end > 0
    requires m <= Split(n) ==>
               && ConsistencyRoots(h, m, Split(n), useKnown, known, path, position)
                  == Ok(RootsOf(h, d, lo, Split(n), m), end - 1)
               && NextAuditHash(path, end - 1) == Ok(TreeHash(h, d, lo + Split(n), n - Split(n)), end)
    requires m > Split(n) ==>
               && ConsistencyRoots(h, m - Split(n), n - Split(n), false, known, path, position)
                  == Ok(RootsOf(h, d, lo + Split(n), n - Split(n), m - Split(n)), end - 1)
               && NextAuditHash(path, end - 1) == Ok(TreeHash(h, d, lo, Split(n)), end)
    ensures ConsistencyRoots(h, m, n, useKnown, known, path, position) == Ok(RootsOf(h, d, lo, n, m), end)
  {
    if m > Split(n) {
      PrefixStep(h, d, lo, n, m);
    }
  }

  lemma {:induction false} ConsistencyRootsComplete(h: Hash, d: seq<Digest>, lo: nat, n: nat, m: nat, useKnown: bool,
                                                    known: Digest, path: seq<Text>, position: nat, end: nat)
    requires 1 <= m <= n && lo + n <= |d|
    requires Holds(path, position, end, SubProof(h, d, lo, n, m, useKnown))
    requires useKnown ==> known == TreeHash(h, d, lo, m)
    ensures ConsistencyRoots(h, m, n, useKnown, known, path, position) == Ok(RootsOf(h, d, lo, n, m), end)
    decreases n
  {
    if m == n {
      if !useKnown {
        HoldsInit(path, position, end, [], TreeHash(h, d, lo, n));
      }
    } else {
      var k := Split(n);
      SubProofHolds(h, d, lo, n, m, useKnown, path, position, end);
      if m <= k {
        ConsistencyRootsComplete(h, d, lo, k, m, useKnown, known, path, position, end - 1);
      } else {
        ConsistencyRootsComplete(h, d, lo + k, n - k, m - k, false, known, path, position, end - 1);
      }
      ConsistencyRootsStep(h, d, lo, n, m, useKnown, known, path, position, end);
    }
  }

  /** For every pair of sizes, the proof of section 2.1.4.1 of RFC 9162 is accepted and consumed to its end. */
  lemma ConsistencyComplete(h: Hash, d: seq<Digest>, n: nat, m: nat)
    requires m <= n <= |d|
    ensures ConsistencyVerdict(h, ConsistencyProof(
              m, Canonical(TreeHash(h, d, 0, m)),
              if m == 0 || m == n then [] else Texts(SubProof(h, d, 0, n, m, true)),
              TreeHead(true, n, Canonical(TreeHash(h, d, 0, n))))) == Accepted
  {
    if 0 < m < n {
      var path := Texts(SubProof(h, d, 0, n, m, true));
      ConsistencyRootsComplete(h, d, 0, n, m, true, TreeHash(h, d, 0, m), path, 0, |path|);
    }
  }
}
