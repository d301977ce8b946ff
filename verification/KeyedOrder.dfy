/** Sorting by a key, when nothing is known about the order of equal keys. */
module KeyedOrder {
  import opened Basics
  import opened TextOrder

  /** Two texts, compared one after the other. */
  datatype Key = Key(first: string, second: string)

  predicate KeyLess(a: Key, b: Key) {
    Less(a.first, b.first) || (a.first == b.first && Less(a.second, b.second))
  }

  lemma KeyLessTransitive(a: Key, b: Key, c: Key)
    requires KeyLess(a, b) && KeyLess(b, c)
    ensures KeyLess(a, c)
  {
    if Less(a.first, b.first) && Less(b.first, c.first) {
      LessTransitive(a.first, b.first, c.first);
    } else if a.first == b.first == c.first {
      LessTransitive(a.second, b.second, c.second);
    }
  }

  lemma KeyLessIrreflexive(a: Key)
    ensures !KeyLess(a, a)
  {
    LessIrreflexive(a.first);
    LessIrreflexive(a.second);
  }

  lemma KeyLessTotal(a: Key, b: Key)
    requires !KeyLess(a, b) && !KeyLess(b, a)
    ensures a == b
  {
    if !Less(a.first, b.first) && !Less(b.first, a.first) {
      LessTotal(a.first, b.first);
      LessTotal(a.second, b.second);
    }
  }

  /** What a sort promises: no later element has a smaller key. */
  ghost predicate Ordered<T>(key: T -> Key, s: seq<T>) {
    forall i, j :: 0 <= i < j < |s| ==> !KeyLess(key(s[j]), key(s[i]))
  }

  /** Neighbours differ in their keys. */
  predicate NeighboursDiffer<T>(key: T -> Key, s: seq<T>) {
    forall i :: 0 < i < |s| ==> key(s[i - 1]) != key(s[i])
  }

  ghost predicate KeysDiffer<T>(key: T -> Key, s: seq<T>) {
    forall i, j :: 0 <= i < j < |s| ==> key(s[i]) != key(s[j])
  }

  /** In sorted order, checking neighbours checks all pairs. */
  lemma NeighboursSuffice<T>(key: T -> Key, s: seq<T>)
    requires Ordered(key, s)
    ensures NeighboursDiffer(key, s) <==> KeysDiffer(key, s)
  {
    if NeighboursDiffer(key, s) {
      forall i, j | 0 <= i < j < |s|
        ensures key(s[i]) != key(s[j])
      {
        if key(s[i]) == key(s[j]) {
          KeyLessTotal(key(s[j - 1]), key(s[j]));
        }
      }
    }
  }

  lemma {:induction false} MemberOfMultiset<T>(s: seq<T>, x: T)
    ensures x in multiset(s) <==> x in s
  {
  }

  /** Whether all keys differ depends on the elements only. */
  lemma KeysDifferPermuted<T>(key: T -> Key, s: seq<T>, t: seq<T>)
    requires multiset(s) == multiset(t) && KeysDiffer(key, s)
    ensures KeysDiffer(key, t)
  {
    forall i, j | 0 <= i < j < |t|
      ensures key(t[i]) != key(t[j])
    {
      if t[i] == t[j] {
        CountTwo(t, i, j);
        OnceOnly(key, s, t[i]);
      } else {
        MemberOfMultiset(t, t[i]);
        MemberOfMultiset(t, t[j]);
        var a :| 0 <= a < |s| && s[a] == t[i];
        var b :| 0 <= b < |s| && s[b] == t[j];
        assert key(s[a]) != key(s[b]) by {
          if a < b { } else { assert b < a; }
        }
      }
    }
  }

  lemma HeadNotInTail<T>(key: T -> Key, s: seq<T>)
    requires KeysDiffer(key, s) && s != []
    ensures s[0] !in s[1..]
  {
    forall k | 0 <= k < |s| - 1
      ensures s[1..][k] != s[0]
    {
      assert key(s[0]) != key(s[k + 1]);
    }
  }

  lemma {:induction false} OnceOnly<T>(key: T -> Key, s: seq<T>, x: T)
    requires KeysDiffer(key, s)
    ensures multiset(s)[x] <= 1
  {
    if s != [] {
      assert s == [s[0]] + s[1..];
      OnceOnly(key, s[1..], x);
      HeadNotInTail(key, s);
    }
  }

  /** With all keys different there is only one sorted order. */
  lemma TailsKept<T>(key: T -> Key, s: seq<T>)
    requires Ordered(key, s) && KeysDiffer(key, s) && s != []
    ensures Ordered(key, s[1..]) && KeysDiffer(key, s[1..]) && multiset(s[1..]) == multiset(s) - multiset{s[0]}
  {
    assert s == [s[0]] + s[1..];
  }

  lemma {:induction false} OneOrder<T>(key: T -> Key, s: seq<T>, t: seq<T>)
    requires multiset(s) == multiset(t) && Ordered(key, s) && Ordered(key, t) && KeysDiffer(key, s)
    ensures s == t
  {
    hide Ordered, KeysDiffer;
    assert t != [] ==> t[0] in multiset(t);
    if s != [] {
      assert s[0] in multiset(t);
      assert t != [];
      KeysDifferPermuted(key, s, t);
      SameFirst(key, s, t);
      TailsKept(key, s);
      TailsKept(key, t);
      OneOrder(key, s[1..], t[1..]);
      assert s == [s[0]] + s[1..] && t == [t[0]] + t[1..];
    }
  }

  lemma SameFirst<T>(key: T -> Key, s: seq<T>, t: seq<T>)
    requires multiset(s) == multiset(t) && Ordered(key, s) && Ordered(key, t) && KeysDiffer(key, s)
    requires KeysDiffer(key, t)
    requires s != [] && t != []
    ensures s[0] == t[0]
  {
    MemberOfMultiset(t, s[0]);
    MemberOfMultiset(s, t[0]);
    var i :| 0 <= i < |t| && t[i] == s[0];
    var j :| 0 <= j < |s| && s[j] == t[0];
    if i > 0 && j > 0 {
      KeyLessTotal(key(s[0]), key(s[j]));
    }
  }

  /** Sort into key order. */
  method Sort<T>(key: T -> Key, s: seq<T>) returns (sorted: seq<T>)
    ensures multiset(sorted) == multiset(s) && Ordered(key, sorted)
  {
    sorted := [];
    var i := 0;
    while i < |s|
      invariant 0 <= i <= |s| && multiset(sorted) == multiset(s[..i]) && Ordered(key, sorted)
    {
      assert s[..i + 1] == s[..i] + [s[i]];
      sorted := Insert(key, sorted, s[i]);
      i := i + 1;
    }
    assert s[..i] == s;
  }

  method Insert<T>(key: T -> Key, s: seq<T>, x: T) returns (r: seq<T>)
    requires Ordered(key, s)
    ensures multiset(r) == multiset(s) + multiset{x} && Ordered(key, r)
  {
    var k := |s|;
    while k > 0 && KeyLess(key(x), key(s[k - 1]))
      invariant 0 <= k <= |s| && forall i :: k <= i < |s| ==> KeyLess(key(x), key(s[i]))
    {
      k := k - 1;
    }
    r := s[..k] + [x] + s[k..];
    assert s == s[..k] + s[k..];
    InsertedOrdered(key, s, x, k);
  }

  lemma InsertedOrdered<T>(key: T -> Key, s: seq<T>, x: T, k: nat)
    requires Ordered(key, s) && k <= |s| && (k > 0 ==> !KeyLess(key(x), key(s[k - 1])))
    requires forall i :: k <= i < |s| ==> KeyLess(key(x), key(s[i]))
    ensures Ordered(key, s[..k] + [x] + s[k..])
  {
    forall i | 0 <= i < k
      ensures !KeyLess(key(x), key(s[i]))
    {
      if i < k - 1 && KeyLess(key(x), key(s[i])) {
        NotLessChain(key(s[k - 1]), key(s[i]), key(x));
      }
    }
    forall i | k <= i < |s|
      ensures !KeyLess(key(s[i]), key(x))
    {
      if KeyLess(key(s[i]), key(x)) {
        KeyLessTransitive(key(x), key(s[i]), key(x));
        KeyLessIrreflexive(key(x));
      }
    }
  }

  /** If `c` is below `a`, and `b` is not below `a`, then `c` is below `b`. */
  lemma NotLessChain(b: Key, a: Key, c: Key)
    requires KeyLess(c, a) && !KeyLess(b, a)
    ensures KeyLess(c, b)
  {
    if a != b {
      if !KeyLess(a, b) {
        KeyLessTotal(a, b);
      }
      KeyLessTransitive(c, a, b);
    }
  }
}
