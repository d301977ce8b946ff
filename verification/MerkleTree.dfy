/**
  The Merkle Tree Hash of section 2.1.1 of RFC 9162 over the ledger's entry
  hashes, the power-of-two split it recurses on, and the audit paths of
  sections 2.1.3.1 and 2.1.4.1.

  The hash is an arbitrary function.  Nothing is assumed about it globally: a
  result that needs collision resistance asks for it on the few pairs of
  messages that the result is about (`Separated`).
*/
module MerkleTree {

  newtype byte = x: int | 0 <= x < 256

  type Bytes = seq<byte>

  /** A decoded SHA-256 digest. */
  datatype Digest = Digest(bytes: Bytes)

  /** What the tree hashes: nothing, one entry hash, or two child hashes. */
  datatype Message = EmptyMessage | LeafMessage(entry: Digest) | NodeMessage(left: Digest, right: Digest)

  /** An arbitrary hash, as the table of its values. */
  type Hash = t: imap<Message, Digest> | forall m: Message :: m in t
    ghost witness imap m: Message | true :: Digest([])

  function Of(h: Hash, m: Message): Digest {
    h[m]
  }

  function LeafHash(h: Hash, entry: Digest): Digest {
    Of(h, LeafMessage(entry))
  }

  function NodeHash(h: Hash, left: Digest, right: Digest): Digest {
    Of(h, NodeMessage(left, right))
  }

  function EmptyRoot(h: Hash): Digest {
    Of(h, EmptyMessage)
  }

  predicate Sized(d: Digest) { |d.bytes| == 32 }

  /** Every digest in the message has the 32 bytes of SHA-256. */
  predicate WellSized(m: Message) {
    match m
    case EmptyMessage => true
    case LeafMessage(entry) => Sized(entry)
    case NodeMessage(left, right) => Sized(left) && Sized(right)
  }

  /** The bytes that are hashed: one domain byte, then the decoded digests. */
  function Encode(m: Message): Bytes {
    match m
    case EmptyMessage => []
    case LeafMessage(entry) => [0 as byte] + entry.bytes
    case NodeMessage(left, right) => [1 as byte] + left.bytes + right.bytes
  }

  /** What section 2.1.1 of RFC 9162 hashes: nothing, 0x00 and an entry, or 0x01 and two child hashes. */
  lemma EncodeShape(m: Message)
    requires WellSized(m)
    ensures match m
            case EmptyMessage => Encode(m) == []
            case LeafMessage(entry) => |Encode(m)| == 33 && Encode(m)[0] == 0 && Encode(m)[1..] == entry.bytes
            case NodeMessage(left, right) =>
              && |Encode(m)| == 65 && Encode(m)[0] == 1
              && Encode(m)[1..33] == left.bytes && Encode(m)[33..] == right.bytes
  {
  }

  /** The domain byte and the fixed digest length make the encoding injective. */
  lemma EncodeInjective(m: Message, n: Message)
    requires WellSized(m) && WellSized(n)
    requires Encode(m) == Encode(n)
    ensures m == n
  {
    var a, b := Encode(m), Encode(n);
    match m
    case EmptyMessage =>
    case LeafMessage(x) =>
      assert a[0] == 0 && a[1..] == x.bytes;
      assert n.LeafMessage? && b[1..] == n.entry.bytes;
    case NodeMessage(x, y) =>
      assert a[0] == 1 && a[1..33] == x.bytes && a[33..] == y.bytes;
      assert n.NodeMessage? && b[1..33] == n.left.bytes && b[33..] == n.right.bytes;
  }

  // ---------------------------------------------------------------- powers of two

  function Pow2(e: nat): (p: nat)
    ensures p >= 1
  {
    if e == 0 then 1 else 2 * Pow2(e - 1)
  }

  lemma {:induction false} Pow2Monotone(a: nat, b: nat)
    requires a < b
    ensures 2 * Pow2(a) <= Pow2(b)
    decreases b
  {
    if a + 1 < b {
      Pow2Monotone(a, b - 1);
    }
  }

  /** `k` is a power of two (it lies strictly between no two neighbouring ones) that halves `n` from below. */
  ghost predicate Halves(k: nat, n: nat) {
    1 <= k < n <= 2 * k && forall e: nat :: !(Pow2(e) < k < 2 * Pow2(e))
  }

  lemma Pow2Halves(e: nat, n: nat)
    requires Pow2(e) < n <= 2 * Pow2(e)
    ensures Halves(Pow2(e), n)
  {
    forall f: nat
      ensures !(Pow2(f) < Pow2(e) < 2 * Pow2(f))
    {
      if f < e {
        Pow2Monotone(f, e);
      } else if e < f {
        Pow2Monotone(e, f);
      }
    }
  }

  lemma {:induction false} HalfExists(n: nat, e: nat)
    requires Pow2(e) < n
    ensures exists k: nat :: Halves(k, n)
    decreases n - Pow2(e)
  {
    if n <= 2 * Pow2(e) {
      Pow2Halves(e, n);
    } else {
      assert Pow2(e + 1) == 2 * Pow2(e);
      HalfExists(n, e + 1);
    }
  }

  lemma {:induction false} Pow2Below(k: nat, e: nat) returns (f: nat)
    requires Pow2(e) <= k
    ensures Pow2(f) <= k < 2 * Pow2(f)
    decreases k - Pow2(e)
  {
    if k < 2 * Pow2(e) {
      f := e;
    } else {
      assert Pow2(e + 1) == 2 * Pow2(e);
      f := Pow2Below(k, e + 1);
    }
  }

  /** The largest power of two strictly below `n`: the split of section 2.1.1 of RFC 9162. */
  ghost function Split(n: nat): (k: nat)
    requires n >= 2
    ensures 1 <= k < n <= 2 * k
  {
    HalfExists(n, 0);
    var k: nat :| Halves(k, n);
    k
  }

  lemma SplitIsPow2(n: nat) returns (e: nat)
    requires n >= 2
    ensures Split(n) == Pow2(e)
  {
    assert Halves(Split(n), n);
    e := Pow2Below(Split(n), 0);
  }

  /** The split is the only power of two that halves `n` from below. */
  lemma SplitUnique(n: nat, e: nat)
    requires n >= 2
    requires Pow2(e) < n <= 2 * Pow2(e)
    ensures Split(n) == Pow2(e)
  {
    var f := SplitIsPow2(n);
    if e < f {
      Pow2Monotone(e, f);
    } else if f < e {
      Pow2Monotone(f, e);
    }
  }

  /** Two sizes on the same side of a power of two share their split. */
  lemma SplitShared(m: nat, n: nat)
    requires n >= 2 && Split(n) < m <= n
    ensures Split(m) == Split(n)
  {
    var e := SplitIsPow2(n);
    SplitUnique(m, e);
  }

  // ---------------------------------------------------------------- tree hash and paths

  /** MTH(D[lo : lo+n]), section 2.1.1 of RFC 9162. */
  ghost function TreeHash(h: Hash, d: seq<Digest>, lo: nat, n: nat): Digest
    requires lo + n <= |d|
    decreases |d|, n
  {
    if n == 0 then EmptyRoot(h)
    else if n == 1 then LeafHash(h, d[lo])
    else
      var k := Split(n);
      NodeHash(h, TreeHash(h, d, lo, k), TreeHash(h, d, lo + k, n - k))
  }

  /** PATH(i - lo, D[lo : lo+n]), section 2.1.3.1 of RFC 9162. */
  ghost function InclusionPath(h: Hash, d: seq<Digest>, lo: nat, n: nat, i: nat): seq<Digest>
    requires lo <= i < lo + n <= |d|
    decreases |d|, n
  {
    if n == 1 then []
    else
      var k := Split(n);
      if i < lo + k then InclusionPath(h, d, lo, k, i) + [TreeHash(h, d, lo + k, n - k)]
      else InclusionPath(h, d, lo + k, n - k, i) + [TreeHash(h, d, lo, k)]
  }

  /** SUBPROOF(m, D[lo : lo+n], b), section 2.1.4.1 of RFC 9162. */
  ghost function SubProof(h: Hash, d: seq<Digest>, lo: nat, n: nat, m: nat, b: bool): seq<Digest>
    requires 1 <= m <= n && lo + n <= |d|
    decreases |d|, n
  {
    if m == n then (if b then [] else [TreeHash(h, d, lo, n)])
    else
      var k := Split(n);
      if m <= k then SubProof(h, d, lo, k, m, b) + [TreeHash(h, d, lo + k, n - k)]
      else SubProof(h, d, lo + k, n - k, m - k, false) + [TreeHash(h, d, lo, k)]
  }

  lemma TreeHashStep(h: Hash, d: seq<Digest>, lo: nat, n: nat)
    requires lo + n <= |d| && n >= 2
    ensures TreeHash(h, d, lo, n)
            == NodeHash(h, TreeHash(h, d, lo, Split(n)), TreeHash(h, d, lo + Split(n), n - Split(n)))
  {
  }

  /** A prefix longer than the split shares the left half of the whole tree. */
  lemma PrefixStep(h: Hash, d: seq<Digest>, lo: nat, n: nat, m: nat)
    requires lo + n <= |d| && n >= 2 && Split(n) < m <= n
    ensures TreeHash(h, d, lo, m)
            == NodeHash(h, TreeHash(h, d, lo, Split(n)), TreeHash(h, d, lo + Split(n), m - Split(n)))
  {
    SplitShared(m, n);
    TreeHashStep(h, d, lo, m);
  }

  /** The hash of a range depends on the entries in that range only. */
  lemma {:induction false} TreeHashFrame(h: Hash, d: seq<Digest>, lo: nat, c: seq<Digest>, at: nat, n: nat)
    requires lo + n <= |d| && at + n <= |c|
    requires d[lo..lo + n] == c[at..at + n]
    ensures TreeHash(h, d, lo, n) == TreeHash(h, c, at, n)
    decreases n
  {
    if n == 1 {
      assert d[lo..lo + n][0] == c[at..at + n][0];
    } else if n > 1 {
      var k := Split(n);
      assert d[lo..lo + k] == d[lo..lo + n][..k];
      assert c[at..at + k] == c[at..at + n][..k];
      TreeHashFrame(h, d, lo, c, at, k);
      assert d[lo + k..lo + n] == d[lo..lo + n][k..];
      assert c[at + k..at + n] == c[at..at + n][k..];
      TreeHashFrame(h, d, lo + k, c, at + k, n - k);
    }
  }

  lemma SplitHalvesDepth(n: nat, depth: nat)
    requires 2 <= n <= Pow2(depth)
    ensures depth >= 1 && Split(n) <= Pow2(depth - 1)
  {
    var e := SplitIsPow2(n);
    if depth <= e {
      if depth < e {
        Pow2Monotone(depth, e);
      }
    } else if e < depth - 1 {
      Pow2Monotone(e, depth - 1);
    }
  }

  /** A path into `n` entries has at most ceil(log2 n) nodes. */
  lemma {:induction false} InclusionPathLength(h: Hash, d: seq<Digest>, lo: nat, n: nat, i: nat, depth: nat)
    requires lo <= i < lo + n <= |d| && n <= Pow2(depth)
    ensures |InclusionPath(h, d, lo, n, i)| <= depth
    decreases n
  {
    if n > 1 {
      var k := Split(n);
      SplitHalvesDepth(n, depth);
      if i < lo + k {
        InclusionPathLength(h, d, lo, k, i, depth - 1);
      } else {
        InclusionPathLength(h, d, lo + k, n - k, i, depth - 1);
      }
    }
  }

  /** The two messages are no collision: equal hashes only if they are the same message. */
  ghost predicate Separated(h: Hash, x: Message, y: Message) {
    Of(h, x) == Of(h, y) ==> x == y
  }
}
