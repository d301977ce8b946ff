/**
  The canonical line encoding that every hash and signature rests on: the lines of a message joined by
  line feeds, with integers in decimal.
*/
module CanonicalLines {

  // ---------------------------------------------------------------- lines

  const LF: char := '\n'

  function Join(lines: seq<string>): string {
    if |lines| == 0 then ""
    else if |lines| == 1 then lines[0]
    else lines[0] + [LF] + Join(lines[1..])
  }

  /** The encoded message: the lines joined by line feeds, and one more line feed. */
  function Canonical(lines: seq<string>): string {
    Join(lines) + [LF]
  }

  predicate IsLine(s: string) { LF !in s }

  predicate AllLines(lines: seq<string>) {
    forall i :: 0 <= i < |lines| ==> IsLine(lines[i])
  }

  /** The part of a text before its first line feed. */
  function FirstLine(s: string): (n: nat)
    ensures n <= |s| && IsLine(s[..n]) && (n < |s| ==> s[n] == LF)
  {
    if s == "" || s[0] == LF then 0
    else
      var n := FirstLine(s[1..]);
      assert s[..n + 1] == [s[0]] + s[1..][..n];
      1 + n
  }

  /** The lines of a text in which every line ends with a line feed. */
  function Decode(s: string): seq<string>
    decreases |s|
  {
    if s == "" then []
    else
      var n := FirstLine(s);
      [s[..n]] + if n == |s| then [] else Decode(s[n + 1..])
  }

  lemma CanonicalStep(lines: seq<string>)
    requires |lines| >= 1
    ensures Canonical(lines) == lines[0] + [LF] + if |lines| == 1 then "" else Canonical(lines[1..])
  {
  }

  lemma FirstLineOf(line: string, rest: string)
    requires IsLine(line)
    ensures FirstLine(line + [LF] + rest) == |line|
  {
    var s, n := line + [LF] + rest, FirstLine(line + [LF] + rest);
    assert s[|line|] == LF && forall i :: 0 <= i < |line| ==> s[i] == line[i];
    assert forall i :: 0 <= i < n ==> s[i] == s[..n][i];
  }

  lemma {:induction false} DecodeCanonical(lines: seq<string>)
    requires |lines| >= 1 && AllLines(lines)
    ensures Decode(Canonical(lines)) == lines
  {
    var rest := if |lines| == 1 then "" else Canonical(lines[1..]);
    CanonicalStep(lines);
    assert IsLine(lines[0]);
    FirstLineOf(lines[0], rest);
    assert (lines[0] + [LF] + rest)[|lines[0]| + 1..] == rest;
    assert (lines[0] + [LF] + rest)[..|lines[0]|] == lines[0];
    if |lines| > 1 {
      DecodeCanonical(lines[1..]);
    }
  }

  lemma {:induction false} DecodeGivesLines(s: string)
    ensures AllLines(Decode(s))
    decreases |s|
  {
    if s != "" {
      var n := FirstLine(s);
      assert IsLine(s[..n]);
      if n < |s| {
        DecodeGivesLines(s[n + 1..]);
      }
    }
  }

  /** A list of lines can be read back from its encoding exactly if it is not empty and no line has a line feed. */
  lemma DecodableIff(lines: seq<string>)
    ensures Decode(Canonical(lines)) == lines <==> |lines| >= 1 && AllLines(lines)
  {
    if |lines| >= 1 && AllLines(lines) {
      DecodeCanonical(lines);
    } else {
      DecodeGivesLines(Canonical(lines));
      assert Decode(Canonical(lines)) != [];
    }
  }

  /** Equal encodings, equal fields. */
  lemma CanonicalInjective(a: seq<string>, b: seq<string>)
    requires |a| >= 1 && |b| >= 1 && AllLines(a) && AllLines(b)
    requires Canonical(a) == Canonical(b)
    ensures a == b
  {
    DecodeCanonical(a);
    DecodeCanonical(b);
  }

  /** Without the two conditions encodings do coincide. */
  lemma CanonicalCollisions()
    ensures Canonical([]) == Canonical([""])
    ensures Canonical(["a", "b"]) == Canonical(["a\nb"]) && ["a", "b"] != ["a\nb"]
  {
    assert ["a", "b"][1..] == ["b"];
    assert Join(["a", "b"]) == "a" + [LF] + "b";
    assert "a" + [LF] + "b" == "a\nb";
  }

  // ---------------------------------------------------------------- decimal integers

  function Digit(d: int): (c: char)
    requires 0 <= d < 10
    ensures '0' <= c <= '9' && c as int - '0' as int == d
  {
    (d + '0' as int) as char
  }

  function FormatNat(n: nat): string {
    if n < 10 then [Digit(n)] else FormatNat(n / 10) + [Digit(n % 10)]
  }

  function FormatInt(i: int): string {
    if i < 0 then "-" + FormatNat(-i) else FormatNat(i)
  }

  predicate IsDigits(s: string) {
    |s| >= 1 && forall i :: 0 <= i < |s| ==> '0' <= s[i] <= '9'
  }

  /** The value of a string of decimal digits. */
  function Value(s: string): nat
    requires IsDigits(s)
  {
    var last := s[|s| - 1] as int - '0' as int;
    if |s| == 1 then last else 10 * Value(s[..|s| - 1]) + last
  }

  lemma ValueStep(s: string, d: int)
    requires IsDigits(s) && 0 <= d < 10
    ensures IsDigits(s + [Digit(d)]) && Value(s + [Digit(d)]) == 10 * Value(s) + d
  {
    assert (s + [Digit(d)])[..|s|] == s;
  }

  lemma DivideByTen(n: nat)
    ensures 0 <= n / 10 && 0 <= n % 10 < 10 && n == 10 * (n / 10) + n % 10
  {
  }

  lemma {:induction false} FormatNatValue(n: nat)
    ensures IsDigits(FormatNat(n)) && Value(FormatNat(n)) == n
  {
    if n >= 10 {
      var q, d := n / 10, n % 10;
      DivideByTen(n);
      FormatNatValue(q);
      ValueStep(FormatNat(q), d);
    }
  }

  /** Reads back what `FormatInt` wrote. */
  function ParseInt(s: string): int {
    if |s| >= 1 && s[0] == '-' then (if IsDigits(s[1..]) then 0 - Value(s[1..]) else 0)
    else if IsDigits(s) then Value(s) else 0
  }

  lemma ParseFormat(i: int)
    ensures ParseInt(FormatInt(i)) == i
  {
    FormatNatValue(if i < 0 then -i else i);
    if i < 0 {
      assert FormatInt(i)[1..] == FormatNat(-i);
    }
  }

  lemma FormatIntInjective(i: int, j: int)
    requires FormatInt(i) == FormatInt(j)
    ensures i == j
  {
    ParseFormat(i);
    ParseFormat(j);
  }
}
