/** Semantic versions of update manifests: parsing, and the precedence of section 11 of Semantic Versioning 2.0.0. */
module SemanticVersion {
  import opened Basics
  import opened CanonicalLines
  import opened TextOrder

  datatype Version = Version(major: nat, minor: nat, patch: nat, prerelease: seq<string>)

  // ---------------------------------------------------------------- identifiers

  predicate AllDigits(s: string) {
    forall i :: 0 <= i < |s| ==> '0' <= s[i] <= '9'
  }

  predicate IsIdentifierChar(c: char) {
    '0' <= c <= '9' || 'A' <= c <= 'Z' || 'a' <= c <= 'z' || c == '-'
  }

  /** An identifier; a numeric one of a prerelease has no leading zero. */
  predicate IdentifierValid(s: string, rejectLeadingZero: bool) {
    && s != "" && (forall i :: 0 <= i < |s| ==> IsIdentifierChar(s[i]))
    && (rejectLeadingZero && AllDigits(s) && |s| > 1 ==> s[0] != '0')
  }

  /** The characters of section 9 of Semantic Versioning 2.0.0: ASCII letters, digits and hyphens. */
  lemma IdentifierCharacters(c: char)
    ensures IsIdentifierChar(c) <==> c in DIGITS || c in UPPER || c in LOWER || c == '-'
  {
    hide DIGITS, UPPER, LOWER;
    IsDigit(c);
    IsUpper(c);
    IsLower(c);
  }

  predicate Valid(v: Version) {
    forall i :: 0 <= i < |v.prerelease| ==> IdentifierValid(v.prerelease[i], true)
  }

  function CompareIdentifiers(a: string, b: string): int {
    if a == b then 0
    else if AllDigits(a) && AllDigits(b) then
      if |a| < |b| then -1 else if |a| > |b| then 1 else if Less(a, b) then -1 else 1
    else if AllDigits(a) then -1
    else if AllDigits(b) then 1
    else if Less(a, b) then -1
    else 1
  }

  /** The first difference decides; a list that ends first comes first. */
  function CompareLists(a: seq<string>, b: seq<string>): int {
    if a == [] || b == [] then (if |a| < |b| then -1 else if |a| > |b| then 1 else 0)
    else
      var c := CompareIdentifiers(a[0], b[0]);
      if c != 0 then c else CompareLists(a[1..], b[1..])
  }

  function CompareNat(a: nat, b: nat): int { if a < b then -1 else if a > b then 1 else 0 }

  function Compare(a: Version, b: Version): int {
    if a.major != b.major then CompareNat(a.major, b.major)
    else if a.minor != b.minor then CompareNat(a.minor, b.minor)
    else if a.patch != b.patch then CompareNat(a.patch, b.patch)
    else if a.prerelease == [] && b.prerelease == [] then 0
    else if a.prerelease == [] then 1
    else if b.prerelease == [] then -1
    else CompareLists(a.prerelease, b.prerelease)
  }

  /** The comparison with its two loops. */
  method CompareSemanticVersions(left: Version, right: Version) returns (r: int)
    ensures r == Compare(left, right)
  {
    var leftCore, rightCore := [left.major, left.minor, left.patch], [right.major, right.minor, right.patch];
    var i := 0;
    while i < 3
      invariant 0 <= i <= 3 && leftCore[..i] == rightCore[..i]
    {
      if leftCore[i] < rightCore[i] {
        CoreDecides(left, right, leftCore, rightCore, i);
        return -1;
      }
      if leftCore[i] > rightCore[i] {
        CoreDecides(left, right, leftCore, rightCore, i);
        return 1;
      }
      assert leftCore[..i + 1] == leftCore[..i] + [leftCore[i]];
      assert rightCore[..i + 1] == rightCore[..i] + [rightCore[i]];
      i := i + 1;
    }
    assert leftCore[..3] == leftCore && rightCore[..3] == rightCore;
    assert leftCore[0] == rightCore[0] && leftCore[1] == rightCore[1] && leftCore[2] == rightCore[2];
    var a, b := left.prerelease, right.prerelease;
    if a == [] && b == [] {
      return 0;
    }
    if a == [] {
      return 1;
    }
    if b == [] {
      return -1;
    }
    var k := 0;
    while k < |a| && k < |b|
      invariant 0 <= k <= |a| && k <= |b| && CompareLists(a, b) == CompareLists(a[k..], b[k..])
    {
      if a[k] != b[k] {
        var leftNumeric, rightNumeric := AllDigits(a[k]), AllDigits(b[k]);
        if leftNumeric && rightNumeric {
          if |a[k]| < |b[k]| { return -1; }
          if |a[k]| > |b[k]| { return 1; }
          return if Less(a[k], b[k]) then -1 else 1;
        }
        if leftNumeric { return -1; }
        if rightNumeric { return 1; }
        return if Less(a[k], b[k]) then -1 else 1;
      }
      k := k + 1;
    }
    if |a| < |b| { return -1; }
    if |a| > |b| { return 1; }
    return 0;
  }

  lemma CoreDecides(left: Version, right: Version, leftCore: seq<nat>, rightCore: seq<nat>, i: nat)
    requires leftCore == [left.major, left.minor, left.patch] && rightCore == [right.major, right.minor, right.patch]
    requires i < 3 && leftCore[..i] == rightCore[..i] && leftCore[i] != rightCore[i]
    ensures Compare(left, right) == CompareNat(leftCore[i], rightCore[i])
  {
    if i > 0 { assert leftCore[..i][0] == rightCore[..i][0]; }
    if i > 1 { assert leftCore[..i][1] == rightCore[..i][1]; }
  }

  // ---------------------------------------------------------------- a total order

  lemma IdentifiersAntisymmetric(a: string, b: string)
    ensures CompareIdentifiers(a, b) == -CompareIdentifiers(b, a)
    ensures CompareIdentifiers(a, b) == 0 <==> a == b
  {
    if a != b {
      if Less(a, b) { LessAsymmetric(a, b); } else if !Less(b, a) { LessTotal(a, b); }
    }
  }

  lemma IdentifiersTransitive(a: string, b: string, c: string)
    requires CompareIdentifiers(a, b) <= 0 && CompareIdentifiers(b, c) <= 0
    ensures CompareIdentifiers(a, c) <= 0
    ensures CompareIdentifiers(a, b) < 0 || CompareIdentifiers(b, c) < 0 ==> CompareIdentifiers(a, c) < 0
  {
    if Less(a, b) && Less(b, c) {
      LessTransitive(a, b, c);
      LessIrreflexive(a);
    }
    if a == c && a != b {
      IdentifiersAntisymmetric(a, b);
    }
  }

  lemma {:induction false} ListsAntisymmetric(a: seq<string>, b: seq<string>)
    ensures CompareLists(a, b) == -CompareLists(b, a)
    ensures CompareLists(a, b) == 0 <==> a == b
  {
    if a != [] && b != [] {
      IdentifiersAntisymmetric(a[0], b[0]);
      ListsAntisymmetric(a[1..], b[1..]);
      assert a == [a[0]] + a[1..] && b == [b[0]] + b[1..];
    }
  }

  lemma {:induction false} ListsTransitive(a: seq<string>, b: seq<string>, c: seq<string>)
    requires CompareLists(a, b) <= 0 && CompareLists(b, c) <= 0
    ensures CompareLists(a, c) <= 0
    ensures CompareLists(a, b) < 0 || CompareLists(b, c) < 0 ==> CompareLists(a, c) < 0
  {
    if a != [] && b != [] && c != [] {
      IdentifiersTransitive(a[0], b[0], c[0]);
      IdentifiersAntisymmetric(a[0], b[0]);
      IdentifiersAntisymmetric(b[0], c[0]);
      if CompareIdentifiers(a[0], b[0]) == 0 && CompareIdentifiers(b[0], c[0]) == 0 {
        ListsTransitive(a[1..], b[1..], c[1..]);
      }
    }
  }

  /** Swapping the sides negates the answer, and only equal versions compare equal. */
  lemma CompareAntisymmetric(a: Version, b: Version)
    ensures Compare(a, b) == -Compare(b, a)
    ensures Compare(a, b) == 0 <==> a == b
  {
    ListsAntisymmetric(a.prerelease, b.prerelease);
  }

  lemma CompareTransitive(a: Version, b: Version, c: Version)
    requires Compare(a, b) <= 0 && Compare(b, c) <= 0
    ensures Compare(a, c) <= 0
    ensures Compare(a, b) < 0 || Compare(b, c) < 0 ==> Compare(a, c) < 0
  {
    if a.prerelease != [] && b.prerelease != [] && c.prerelease != []
       && CompareLists(a.prerelease, b.prerelease) <= 0 && CompareLists(b.prerelease, c.prerelease) <= 0 {
      ListsTransitive(a.prerelease, b.prerelease, c.prerelease);
    }
  }

  // ---------------------------------------------------------------- numeric identifiers

  function Pow10(n: nat): (p: nat)
    ensures p >= 1
  {
    if n == 0 then 1 else 10 * Pow10(n - 1)
  }

  lemma {:induction false} Pow10Monotone(a: nat, b: nat)
    requires a <= b
    ensures Pow10(a) <= Pow10(b)
    decreases b
  {
    if a < b {
      Pow10Monotone(a, b - 1);
    }
  }

  function DigitOf(c: char): int { c as int - '0' as int }

  /** The value, read from the first digit on. */
  lemma {:induction false} ValueFront(s: string)
    requires IsDigits(s)
    ensures Value(s) == DigitOf(s[0]) * Pow10(|s| - 1) + if |s| == 1 then 0 else Value(s[1..])
  {
    if |s| > 1 {
      var n := |s| - 1;
      ValueFront(s[..n]);
      assert s[..n][1..] == s[1..][..n - 1];
      assert Pow10(n) == 10 * Pow10(n - 1);
      ScaleDigit(DigitOf(s[0]), Pow10(n - 1));
    }
  }

  lemma ScaleDigit(d: int, p: nat)
    ensures d * (10 * p) == 10 * (d * p)
  {
  }

  lemma {:induction false} ValueBounded(s: string)
    requires IsDigits(s)
    ensures Value(s) < Pow10(|s|)
  {
    if |s| > 1 {
      ValueBounded(s[..|s| - 1]);
    }
  }

  lemma FirstDigitCounts(s: string)
    requires IsDigits(s) && s[0] != '0'
    ensures Value(s) >= Pow10(|s| - 1)
  {
    ValueFront(s);
    LeadingFactor(DigitOf(s[0]), Pow10(|s| - 1));
  }

  lemma LeadingFactor(d: int, p: nat)
    requires d >= 1
    ensures d * p >= p
  {
  }

  lemma OneDigit(a: string, b: string)
    requires IsDigits(a) && IsDigits(b) && |a| == |b| == 1
    ensures Less(a, b) <==> Value(a) < Value(b)
    ensures Value(a) == Value(b) ==> a == b
  {
    assert a == [a[0]] && b == [b[0]] && a[1..] == "" && b[1..] == "";
  }

  lemma LessStep(a: string, b: string)
    requires a != "" && b != ""
    ensures Less(a, b) <==> DigitOf(a[0]) < DigitOf(b[0]) || (a[0] == b[0] && Less(a[1..], b[1..]))
  {
  }

  /** Of two digit strings of one length, the smaller text is the smaller number. */
  lemma {:induction false} TextOrderIsValueOrder(a: string, b: string)
    requires IsDigits(a) && IsDigits(b) && |a| == |b|
    ensures Less(a, b) <==> Value(a) < Value(b)
    ensures Value(a) == Value(b) ==> a == b
  {
    hide Less, Value, Pow10;
    if |a| == 1 {
      OneDigit(a, b);
    } else {
      LessStep(a, b);
      var p := Pow10(|a| - 1);
      ValueFront(a);
      ValueFront(b);
      TextOrderIsValueOrder(a[1..], b[1..]);
      ValueBounded(a[1..]);
      ValueBounded(b[1..]);
      FirstDigitDecides(DigitOf(a[0]), DigitOf(b[0]), p, Value(a[1..]), Value(b[1..]));
      assert a == [a[0]] + a[1..] && b == [b[0]] + b[1..];
    }
  }

  lemma FirstDigitDecides(d: int, e: int, p: nat, x: nat, y: nat)
    requires x < p && y < p
    ensures d < e ==> d * p + x < e * p + y
    ensures e < d ==> e * p + y < d * p + x
  {
    if d < e {
      FactorGap(d, e, p);
    } else if e < d {
      FactorGap(e, d, p);
    }
  }

  lemma FactorGap(d: int, e: int, p: nat)
    requires d < e
    ensures d * p + p <= e * p
  {
    LeadingFactor(e - d, p);
    assert (e - d) * p == e * p - d * p;
  }

  /** Comparing numeric identifiers by length and then by text compares their integer values. */
  lemma NumericIdentifiersByValue(a: string, b: string)
    requires IdentifierValid(a, true) && IdentifierValid(b, true) && AllDigits(a) && AllDigits(b)
    ensures CompareIdentifiers(a, b) == CompareNat(Value(a), Value(b))
  {
    if |a| < |b| {
      ValueBounded(a);
      FirstDigitCounts(b);
      Pow10Monotone(|a|, |b| - 1);
    } else if |b| < |a| {
      ValueBounded(b);
      FirstDigitCounts(a);
      Pow10Monotone(|b|, |a| - 1);
    } else {
      TextOrderIsValueOrder(a, b);
    }
  }

  // ---------------------------------------------------------------- the precedence

  predicate IsNumeric(s: string) { forall c :: c in s ==> c in DIGITS }

  /** Numbers by value, before all other identifiers; those by their characters. */
  predicate IdentifierPrecedes(a: string, b: string) {
    if IsNumeric(a) && IsNumeric(b) && a != "" && b != "" then NumberOf(a) < NumberOf(b)
    else if IsNumeric(a) || IsNumeric(b) then IsNumeric(a) && !IsNumeric(b)
    else Less(a, b)
  }

  function NumberOf(s: string): int
    requires s != "" && IsNumeric(s)
  {
    assert IsDigits(s) by { NumericIsDigits(s); }
    Value(s)
  }

  /** At the first difference the one precedes the other; or it ends there, and the other goes on. */
  predicate ListPrecedes(a: seq<string>, b: seq<string>) {
    exists k :: 0 <= k <= |a| && k < |b| && a[..k] == b[..k] && (k < |a| ==> IdentifierPrecedes(a[k], b[k]))
  }

  /** Section 11: by major, minor and patch version; then a prerelease before its release; then by identifiers. */
  predicate Precedes(a: Version, b: Version) {
    if a.major != b.major then a.major < b.major
    else if a.minor != b.minor then a.minor < b.minor
    else if a.patch != b.patch then a.patch < b.patch
    else a.prerelease != [] && (b.prerelease == [] || ListPrecedes(a.prerelease, b.prerelease))
  }

  lemma NumericIsDigits(s: string)
    ensures IsNumeric(s) <==> AllDigits(s)
    ensures IsNumeric(s) && s != "" ==> IsDigits(s)
  {
    forall c: char
      ensures c in DIGITS <==> '0' <= c <= '9'
    {
      IsDigit(c);
    }
    assert forall i :: 0 <= i < |s| ==> s[i] in s;
  }

  lemma IdentifierMeans(a: string, b: string)
    requires IdentifierValid(a, true) && IdentifierValid(b, true)
    ensures CompareIdentifiers(a, b) < 0 <==> IdentifierPrecedes(a, b)
  {
    NumericIsDigits(a);
    NumericIsDigits(b);
    if AllDigits(a) && AllDigits(b) {
      NumericIdentifiersByValue(a, b);
    } else {
      LessIrreflexive(a);
    }
  }

  lemma {:induction false} ListMeans(a: seq<string>, b: seq<string>)
    requires forall i :: 0 <= i < |a| ==> IdentifierValid(a[i], true)
    requires forall i :: 0 <= i < |b| ==> IdentifierValid(b[i], true)
    ensures CompareLists(a, b) < 0 <==> ListPrecedes(a, b)
  {
    hide CompareIdentifiers, IdentifierPrecedes, IdentifierValid;
    if a == [] || b == [] {
      assert a[..0] == b[..0];
    } else {
      IdentifierMeans(a[0], b[0]);
      IdentifiersAntisymmetric(a[0], b[0]);
      if a[0] == b[0] {
        ListMeans(a[1..], b[1..]);
        SameFirst(a, b);
      } else {
        FirstDecides(a, b);
      }
    }
  }

  lemma SameFirst(a: seq<string>, b: seq<string>)
    requires a != [] && b != [] && a[0] == b[0] && IdentifierValid(a[0], true)
    ensures ListPrecedes(a, b) <==> ListPrecedes(a[1..], b[1..])
  {
    hide CompareIdentifiers, IdentifierPrecedes, IdentifierValid;
    IdentifierMeans(a[0], b[0]);
    IdentifiersAntisymmetric(a[0], b[0]);
    if ListPrecedes(a[1..], b[1..]) {
      var k :| 0 <= k <= |a[1..]| && k < |b[1..]| && a[1..][..k] == b[1..][..k]
               && (k < |a[1..]| ==> IdentifierPrecedes(a[1..][k], b[1..][k]));
      assert a[..k + 1] == [a[0]] + a[1..][..k] && b[..k + 1] == [b[0]] + b[1..][..k];
    }
    if ListPrecedes(a, b) {
      var k :| 0 <= k <= |a| && k < |b| && a[..k] == b[..k] && (k < |a| ==> IdentifierPrecedes(a[k], b[k]));
      assert k > 0;
      assert a[1..][..k - 1] == a[..k][1..] && b[1..][..k - 1] == b[..k][1..];
    }
  }

  lemma FirstDecides(a: seq<string>, b: seq<string>)
    requires a != [] && b != [] && a[0] != b[0]
    ensures ListPrecedes(a, b) <==> IdentifierPrecedes(a[0], b[0])
  {
    hide IdentifierPrecedes;
    assert a[..0] == b[..0];
    assert forall k :: 0 < k <= |a| && k < |b| ==> a[..k][0] == a[0] && b[..k][0] == b[0];
  }

  /** The comparison is the precedence of section 11 of Semantic Versioning 2.0.0. */
  lemma CompareIsPrecedence(a: Version, b: Version)
    requires Valid(a) && Valid(b)
    ensures Compare(a, b) == if Precedes(a, b) then -1 else if Precedes(b, a) then 1 else 0
  {
    hide ListPrecedes;
    ListMeans(a.prerelease, b.prerelease);
    ListMeans(b.prerelease, a.prerelease);
    ListsAntisymmetric(a.prerelease, b.prerelease);
    ListSign(a.prerelease, b.prerelease);
  }

  lemma {:induction false} ListSign(a: seq<string>, b: seq<string>)
    ensures -1 <= CompareLists(a, b) <= 1
  {
    if a != [] && b != [] {
      ListSign(a[1..], b[1..]);
    }
  }

  // ---------------------------------------------------------------- texts

  /** The first index of a character, or the length. */
  function Find(s: string, c: char): (n: nat)
    ensures n <= |s| && c !in s[..n] && (n < |s| ==> s[n] == c)
  {
    if s == "" || s[0] == c then 0
    else
      var n := Find(s[1..], c);
      assert s[..n + 1] == [s[0]] + s[1..][..n];
      1 + n
  }

  lemma FindAt(a: string, c: char, b: string)
    requires c !in a
    ensures Find(a + [c] + b, c) == |a|
  {
    var s := a + [c] + b;
    var n := Find(s, c);
    assert s[|a|] == c && forall i :: 0 <= i < |a| ==> s[i] == a[i];
    assert forall i :: 0 <= i < n ==> s[i] == s[..n][i];
  }

  lemma FindNone(s: string, c: char)
    requires c !in s
    ensures Find(s, c) == |s|
  {
  }

  function Split(s: string, c: char): (r: seq<string>)
    ensures |r| >= 1
    decreases |s|
  {
    var n := Find(s, c);
    if n == |s| then [s] else [s[..n]] + Split(s[n + 1..], c)
  }

  function Joined(parts: seq<string>, c: char): string
    requires |parts| >= 1
  {
    if |parts| == 1 then parts[0] else parts[0] + [c] + Joined(parts[1..], c)
  }

  lemma {:induction false} SplitJoined(parts: seq<string>, c: char)
    requires |parts| >= 1 && forall i :: 0 <= i < |parts| ==> c !in parts[i]
    ensures Split(Joined(parts, c), c) == parts
  {
    if |parts| == 1 {
      FindNone(parts[0], c);
    } else {
      var rest := Joined(parts[1..], c);
      FindAt(parts[0], c, rest);
      assert (parts[0] + [c] + rest)[|parts[0]| + 1..] == rest;
      assert (parts[0] + [c] + rest)[..|parts[0]|] == parts[0];
      SplitJoined(parts[1..], c);
    }
  }

  lemma {:induction false} JoinedSplit(s: string, c: char)
    ensures Joined(Split(s, c), c) == s
    decreases |s|
  {
    hide Joined;
    var n := Find(s, c);
    if n < |s| {
      JoinedSplit(s[n + 1..], c);
      JoinedCons(s[..n], Split(s[n + 1..], c), c);
      assert s == s[..n] + [c] + s[n + 1..];
    } else {
      JoinedOne(s, c);
    }
  }

  lemma JoinedCons(part: string, parts: seq<string>, c: char)
    requires |parts| >= 1
    ensures Joined([part] + parts, c) == part + [c] + Joined(parts, c)
  {
    assert ([part] + parts)[1..] == parts;
  }

  lemma JoinedOne(part: string, c: char)
    ensures Joined([part], c) == part
  {
  }

  lemma {:induction false} JoinedWithout(parts: seq<string>, c: char, d: char)
    requires |parts| >= 1 && c != d && forall i :: 0 <= i < |parts| ==> d !in parts[i]
    ensures d !in Joined(parts, c)
  {
    if |parts| > 1 {
      JoinedWithout(parts[1..], c, d);
    }
  }

  lemma {:induction false} FormatNatCanonical(n: nat)
    ensures |FormatNat(n)| > 1 || n == 0 ==> (n == 0 <==> FormatNat(n)[0] == '0')
    ensures n >= 1 ==> FormatNat(n) != "" && FormatNat(n)[0] != '0'
  {
    FormatNatValue(n);
    if n >= 10 {
      DivideByTen(n);
      FormatNatValue(n / 10);
      FormatNatCanonical(n / 10);
    }
  }

  /** Decimal digits without a leading zero are the text of their value. */
  lemma {:induction false} FormatValue(s: string)
    requires IsDigits(s) && (|s| > 1 ==> s[0] != '0')
    ensures FormatNat(Value(s)) == s
  {
    var n := |s| - 1;
    if n > 0 {
      FormatValue(s[..n]);
      FirstDigitCounts(s);
      ValueOfPrefix(s);
      assert s == s[..n] + [s[n]];
      LastDigit(Value(s[..n]), DigitOf(s[n]));
    }
  }

  lemma ValueOfPrefix(s: string)
    requires IsDigits(s) && |s| > 1
    ensures Value(s) == 10 * Value(s[..|s| - 1]) + DigitOf(s[|s| - 1])
  {
  }

  lemma LastDigit(q: nat, d: nat)
    requires d < 10
    ensures (10 * q + d) / 10 == q && (10 * q + d) % 10 == d
  {
  }

  // ---------------------------------------------------------------- parsing

  const TWO_64: int := 0x1_0000_0000_0000_0000

  predicate IdentifiersValid(s: string, rejectLeadingZero: bool) {
    s != "" && forall i :: 0 <= i < |Split(s, '.')| ==> IdentifierValid(Split(s, '.')[i], rejectLeadingZero)
  }

  /** A core number: digits without a leading zero, in 64 unsigned bits. */
  predicate PartValid(s: string) {
    IsDigits(s) && (|s| > 1 ==> s[0] != '0') && Value(s) < TWO_64
  }

  predicate HasLineBreak(s: string) { '\r' in s || '\n' in s }

  function Parse(value: string): Option<Version> {
    if |value| < 5 || |value| > 128 || HasLineBreak(value) then None
    else
      var p := Find(value, '+');
      if p < |value| && ('+' in value[p + 1..] || !IdentifiersValid(value[p + 1..], false)) then None
      else ParseMain(value[..p])
  }

  function ParseMain(main: string): Option<Version> {
    var q := Find(main, '-');
    if q < |main| && !IdentifiersValid(main[q + 1..], true) then None
    else
      match ParseCore(main[..q])
      case None => None
      case Some(v) => Some(if q < |main| then v.(prerelease := Split(main[q + 1..], '.')) else v)
  }

  function ParseCore(core: string): Option<Version> {
    var parts := Split(core, '.');
    if |parts| == 3 && PartValid(parts[0]) && PartValid(parts[1]) && PartValid(parts[2]) then
      Some(Version(Value(parts[0]), Value(parts[1]), Value(parts[2]), []))
    else None
  }

  function FormatCore(v: Version): string {
    FormatNat(v.major) + ['.'] + (FormatNat(v.minor) + ['.'] + FormatNat(v.patch))
  }

  /** The canonical text of a version, without build metadata. */
  function Format(v: Version): string {
    FormatCore(v) + if v.prerelease == [] then "" else ['-'] + Joined(v.prerelease, '.')
  }

  /** The suffix that carries build metadata, which precedence ignores. */
  predicate BuildSuffix(s: string) {
    s == "" || (s[0] == '+' && '+' !in s[1..] && IdentifiersValid(s[1..], false))
  }

  /** The core fits in 64 unsigned bits. */
  predicate FitsCore(v: Version) {
    && v.major <= 18_446_744_073_709_551_615 && v.minor <= 18_446_744_073_709_551_615
    && v.patch <= 18_446_744_073_709_551_615
  }

  lemma JoinedThree(a: string, b: string, c: string, d: char)
    ensures Joined([a, b, c], d) == a + [d] + (b + [d] + c)
  {
    assert [a, b, c][1..] == [b, c] && [b, c][1..] == [c];
    assert Joined([b, c], d) == b + [d] + c;
  }

  lemma CorePartsOf(v: Version)
    ensures FormatCore(v) == Joined([FormatNat(v.major), FormatNat(v.minor), FormatNat(v.patch)], '.')
  {
    JoinedThree(FormatNat(v.major), FormatNat(v.minor), FormatNat(v.patch), '.');
  }

  lemma PartOf(n: nat)
    requires n < TWO_64
    ensures PartValid(FormatNat(n)) && Value(FormatNat(n)) == n
  {
    FormatNatValue(n);
    FormatNatCanonical(n);
  }

  lemma DigitsWithout(s: string, c: char)
    requires IsDigits(s) && !('0' <= c <= '9')
    ensures c !in s
  {
  }

  lemma CoreWithout(v: Version, c: char)
    requires c != '.' && !('0' <= c <= '9')
    ensures c !in FormatCore(v)
  {
    var parts := [FormatNat(v.major), FormatNat(v.minor), FormatNat(v.patch)];
    FormatNatValue(v.major);
    FormatNatValue(v.minor);
    FormatNatValue(v.patch);
    CorePartsOf(v);
    JoinedWithout(parts, '.', c);
  }

  lemma ParseCoreFormat(v: Version)
    requires FitsCore(v)
    ensures ParseCore(FormatCore(v)) == Some(v.(prerelease := []))
  {
    var parts := [FormatNat(v.major), FormatNat(v.minor), FormatNat(v.patch)];
    PartOf(v.major);
    PartOf(v.minor);
    PartOf(v.patch);
    forall i | 0 <= i < 3
      ensures '.' !in parts[i]
    {
      DigitsWithout(parts[i], '.');
    }
    CorePartsOf(v);
    SplitJoined(parts, '.');
  }

  lemma IdentifierWithout(s: string, c: char)
    requires IdentifierValid(s, false) && !IsIdentifierChar(c)
    ensures c !in s
  {
  }

  /** A character that no identifier has is not in a list of identifiers, apart from the dots between them. */
  lemma IdentifiersWithout(parts: seq<string>, c: char)
    requires |parts| >= 1 && (forall i :: 0 <= i < |parts| ==> IdentifierValid(parts[i], false))
    requires c != '.' && !IsIdentifierChar(c)
    ensures c !in Joined(parts, '.')
  {
    forall i | 0 <= i < |parts|
      ensures c !in parts[i]
    {
      IdentifierWithout(parts[i], c);
    }
    JoinedWithout(parts, '.', c);
  }

  lemma FormatWithout(v: Version, c: char)
    requires Valid(v) && c != '.' && !IsIdentifierChar(c)
    ensures c !in Format(v)
  {
    CoreWithout(v, c);
    if v.prerelease != [] {
      IdentifiersWithout(v.prerelease, c);
    }
  }

  lemma BuildWithout(build: string, c: char)
    requires BuildSuffix(build) && c != '.' && c != '+' && !IsIdentifierChar(c)
    ensures c !in build
  {
    if build != "" {
      IdentifiersWithout(Split(build[1..], '.'), c);
      JoinedSplit(build[1..], '.');
      assert build == [build[0]] + build[1..];
    }
  }

  lemma JoinedNonempty(parts: seq<string>, c: char)
    requires |parts| >= 1 && parts[0] != ""
    ensures Joined(parts, c) != ""
  {
  }

  lemma ParseMainFormat(v: Version)
    requires Valid(v) && FitsCore(v)
    ensures ParseMain(Format(v)) == Some(v)
  {
    var core := FormatCore(v);
    ParseCoreFormat(v);
    CoreWithout(v, '-');
    if v.prerelease == [] {
      assert Format(v) == core;
      FindNone(core, '-');
    } else {
      var pre := Joined(v.prerelease, '.');
      forall i | 0 <= i < |v.prerelease|
        ensures '.' !in v.prerelease[i]
      {
        IdentifierWithout(v.prerelease[i], '.');
      }
      SplitJoined(v.prerelease, '.');
      JoinedNonempty(v.prerelease, '.');
      assert Format(v) == core + ['-'] + pre;
      FindAt(core, '-', pre);
      assert Format(v)[..|core|] == core && Format(v)[|core| + 1..] == pre;
    }
  }

  lemma CutBuild(text: string, build: string)
    requires '+' !in text && (build == "" || build[0] == '+')
    ensures Find(text + build, '+') == |text| && (text + build)[..|text|] == text
    ensures build != "" ==> (text + build)[|text| + 1..] == build[1..]
  {
    if build == "" {
      assert text + build == text;
      FindNone(text, '+');
    } else {
      assert text + build == text + ['+'] + build[1..];
      FindAt(text, '+', build[1..]);
    }
  }

  lemma NoLineBreak(v: Version, build: string)
    requires Valid(v) && BuildSuffix(build)
    ensures !HasLineBreak(Format(v) + build)
  {
    FormatWithout(v, '\r');
    FormatWithout(v, '\n');
    BuildWithout(build, '\r');
    BuildWithout(build, '\n');
  }

  lemma ParseWithBuild(text: string, build: string, v: Version)
    requires '+' !in text && BuildSuffix(build) && !HasLineBreak(text + build) && ParseMain(text) == Some(v)
    ensures Parse(text + build) == if 5 <= |text + build| <= 128 then Some(v) else None
  {
    CutBuild(text, build);
  }

  /** Every valid version is read back from its text, with any build metadata behind it, within the length limits. */
  lemma ParseFormat(v: Version, build: string)
    requires Valid(v) && FitsCore(v) && BuildSuffix(build)
    ensures Parse(Format(v) + build) == if 5 <= |Format(v) + build| <= 128 then Some(v) else None
  {
    var text := Format(v);
    FormatWithout(v, '+');
    NoLineBreak(v, build);
    ParseMainFormat(v);
    ParseWithBuild(text, build, v);
  }

  lemma FormatParsedCore(core: string)
    requires ParseCore(core).Some?
    ensures FormatCore(ParseCore(core).value) == core && FitsCore(ParseCore(core).value)
  {
    var parts := Split(core, '.');
    FormatValue(parts[0]);
    FormatValue(parts[1]);
    FormatValue(parts[2]);
    JoinedSplit(core, '.');
    CorePartsOf(ParseCore(core).value);
    assert parts == [parts[0], parts[1], parts[2]];
  }

  lemma CutAt(s: string, n: nat)
    requires n < |s|
    ensures s == s[..n] + ([s[n]] + s[n + 1..])
  {
  }

  lemma FormatWithPrerelease(core: Version, pre: string)
    ensures Format(core.(prerelease := Split(pre, '.'))) == FormatCore(core) + (['-'] + pre)
  {
    JoinedSplit(pre, '.');
  }

  lemma FormatParsedMain(main: string)
    requires ParseMain(main).Some?
    ensures Valid(ParseMain(main).value) && FitsCore(ParseMain(main).value) && Format(ParseMain(main).value) == main
  {
    var q := Find(main, '-');
    var core := ParseCore(main[..q]).value;
    FormatParsedCore(main[..q]);
    if q < |main| {
      CutAt(main, q);
      FormatWithPrerelease(core, main[q + 1..]);
    } else {
      assert main[..q] == main;
      assert Format(core) == FormatCore(core);
    }
  }

  /** What parses is valid, and its text is the canonical text of the version with build metadata behind it. */
  lemma FormatParse(value: string)
    requires Parse(value).Some?
    ensures Valid(Parse(value).value) && FitsCore(Parse(value).value)
    ensures Format(Parse(value).value) == value[..Find(value, '+')] && BuildSuffix(value[Find(value, '+')..])
  {
    var p := Find(value, '+');
    FormatParsedMain(value[..p]);
    if p < |value| {
      assert value[p..][1..] == value[p + 1..];
    }
  }
}
