/** The order of texts by their characters, as the database and the program sort them. */
module TextOrder {
  import opened Basics

  const DIGITS: string := "0123456789"

  const LOWER: string := "abcdefghijklmnopqrstuvwxyz"

  const UPPER: string := "ABCDEFGHIJKLMNOPQRSTUVWXYZ"

  lemma IsDigit(c: char)
    ensures '0' <= c <= '9' <==> c in DIGITS
  {
    if '0' <= c <= '9' {
      assert DIGITS[c as int - '0' as int] == c;
    }
  }

  lemma IsLower(c: char)
    ensures 'a' <= c <= 'z' <==> c in LOWER
  {
    if 'a' <= c <= 'z' {
      assert LOWER[c as int - 'a' as int] == c;
    }
  }

  lemma IsUpper(c: char)
    ensures 'A' <= c <= 'Z' <==> c in UPPER
  {
    if 'A' <= c <= 'Z' {
      assert UPPER[c as int - 'A' as int] == c;
    }
  }

  predicate Less(a: string, b: string) {
    b != "" && (a == "" || a[0] < b[0] || (a[0] == b[0] && Less(a[1..], b[1..])))
  }

  lemma {:induction false} LessIrreflexive(a: string)
    ensures !Less(a, a)
  {
    if a != "" {
      LessIrreflexive(a[1..]);
    }
  }

  lemma {:induction false} LessTransitive(a: string, b: string, c: string)
    requires Less(a, b) && Less(b, c)
    ensures Less(a, c)
  {
    if a != "" && a[0] == b[0] == c[0] {
      LessTransitive(a[1..], b[1..], c[1..]);
    }
  }

  lemma {:induction false} LessTotal(a: string, b: string)
    requires !Less(a, b) && !Less(b, a)
    ensures a == b
  {
    if a != "" && b != "" {
      LessTotal(a[1..], b[1..]);
    }
  }

  /** `b` continues `a`, or has the larger character at the first place where they differ. */
  lemma {:induction false} LessMeans(a: string, b: string)
    ensures Less(a, b) <==>
            exists k :: 0 <= k <= |a| && k < |b| && a[..k] == b[..k] && (k < |a| ==> a[k] < b[k])
  {
    if a != "" && b != "" && a[0] == b[0] {
      LessMeans(a[1..], b[1..]);
      if Less(a, b) {
        var k :| 0 <= k <= |a[1..]| && k < |b[1..]| && a[1..][..k] == b[1..][..k]
                 && (k < |a[1..]| ==> a[1..][k] < b[1..][k]);
        assert a[..k + 1] == [a[0]] + a[1..][..k] && b[..k + 1] == [b[0]] + b[1..][..k];
      }
      if k :| 0 <= k <= |a| && k < |b| && a[..k] == b[..k] && (k < |a| ==> a[k] < b[k]) {
        assert k > 0;
        assert a[1..][..k - 1] == a[..k][1..] && b[1..][..k - 1] == b[..k][1..];
      }
    } else {
      assert a[..0] == b[..0];
      assert forall k :: 0 < k <= |a| && k < |b| ==> a[..k][0] == a[0] && b[..k][0] == b[0];
    }
  }

  lemma LessAsymmetric(a: string, b: string)
    requires Less(a, b)
    ensures !Less(b, a)
  {
    if Less(b, a) {
      LessTransitive(a, b, a);
      LessIrreflexive(a);
    }
  }

  ghost predicate StrictlySorted(s: seq<string>) {
    forall i, j :: 0 <= i < j < |s| ==> Less(s[i], s[j])
  }

  /** A strictly sorted list is determined by its elements. */
  lemma {:induction false} SortedUnique(s: seq<string>, t: seq<string>)
    requires StrictlySorted(s) && StrictlySorted(t)
    requires forall x :: x in s <==> x in t
    ensures s == t
  {
    assert t != [] ==> t[0] in t;
    if s != [] {
      assert s[0] in t;
      FirstEqual(s, t);
      forall x
        ensures x in s[1..] <==> x in t[1..]
      {
        TailMember(s, x);
        TailMember(t, x);
      }
      SortedUnique(s[1..], t[1..]);
    }
  }

  lemma TailMember(s: seq<string>, x: string)
    requires StrictlySorted(s) && s != []
    ensures x in s[1..] <==> x in s && x != s[0]
  {
    LessIrreflexive(s[0]);
    if x in s[1..] {
      var i :| 0 <= i < |s| - 1 && s[1..][i] == x;
      assert Less(s[0], s[i + 1]);
    }
  }

  lemma FirstEqual(s: seq<string>, t: seq<string>)
    requires StrictlySorted(s) && StrictlySorted(t) && s != [] && t != [] && s[0] in t && t[0] in s
    ensures s[0] == t[0]
  {
    var i :| 0 <= i < |t| && t[i] == s[0];
    var j :| 0 <= j < |s| && s[j] == t[0];
    if i > 0 && j > 0 {
      LessTransitive(t[0], t[i], s[j]);
      LessIrreflexive(t[0]);
    }
  }

  /** Put a text in its place, unless it is there. */
  function InsertText(s: seq<string>, x: string): seq<string> {
    if s == [] then [x]
    else if s[0] == x then s
    else if Less(x, s[0]) then [x] + s
    else [s[0]] + InsertText(s[1..], x)
  }

  lemma {:induction false} InsertTextMembers(s: seq<string>, x: string)
    ensures forall y :: y in InsertText(s, x) <==> y == x || y in s
  {
    if s != [] && s[0] != x && !Less(x, s[0]) {
      InsertTextMembers(s[1..], x);
      assert s == [s[0]] + s[1..];
    } else if s != [] && s[0] == x {
      assert s[0] in s;
    }
  }

  lemma {:induction false} InsertTextSorted(s: seq<string>, x: string)
    requires StrictlySorted(s)
    ensures StrictlySorted(InsertText(s, x))
  {
    if s != [] && s[0] != x {
      if Less(x, s[0]) {
        forall j | 0 <= j < |s|
          ensures Less(x, s[j])
        {
          if j > 0 {
            LessTransitive(x, s[0], s[j]);
          }
        }
      } else {
        var r := InsertText(s[1..], x);
        InsertTextSorted(s[1..], x);
        InsertTextMembers(s[1..], x);
        forall j | 0 <= j < |r|
          ensures Less(s[0], r[j])
        {
          assert r[j] in r;
          if r[j] == x {
            if !Less(s[0], x) {
              LessTotal(s[0], x);
            }
          } else {
            var i :| 0 <= i < |s| - 1 && s[1..][i] == r[j];
            assert s[i + 1] == r[j];
          }
        }
      }
    }
  }

  /** A strictly sorted list has no repeats. */
  lemma {:induction false} SortedCount(s: seq<string>, texts: set<string>)
    requires StrictlySorted(s) && forall x :: x in texts <==> x in s
    ensures |texts| == |s|
  {
    if s == [] {
      assert texts == {};
    } else {
      assert s[0] in s;
      forall x
        ensures x in texts - {s[0]} <==> x in s[1..]
      {
        TailMember(s, x);
      }
      SortedCount(s[1..], texts - {s[0]});
    }
  }

  /** A strictly sorted list that lies in a set of its size is that set. */
  lemma SortedFills(s: seq<string>, texts: set<string>)
    requires StrictlySorted(s) && |s| == |texts| && forall x :: x in s ==> x in texts
    ensures forall x :: x in texts <==> x in s
  {
    var members := set x | x in s;
    SortedCount(s, members);
    SameSizeSubset(members, texts);
  }

  lemma SortedAppend(s: seq<string>, x: string)
    requires StrictlySorted(s) && (s != [] ==> Less(s[|s| - 1], x))
    ensures StrictlySorted(s + [x])
  {
    forall i | 0 <= i < |s|
      ensures Less(s[i], x)
    {
      if i < |s| - 1 {
        LessTransitive(s[i], s[|s| - 1], x);
      }
    }
  }

  /** Collect the elements of a set and sort them. */
  method SortTexts(texts: set<string>) returns (sorted: seq<string>)
    ensures StrictlySorted(sorted) && forall x :: x in sorted <==> x in texts
  {
    sorted := [];
    var rest := texts;
    while rest != {}
      invariant rest <= texts && StrictlySorted(sorted)
      invariant forall x :: x in texts <==> x in sorted || x in rest
      decreases |rest|
    {
      var x :| x in rest;
      InsertTextSorted(sorted, x);
      InsertTextMembers(sorted, x);
      sorted, rest := InsertText(sorted, x), rest - {x};
    }
  }
}
