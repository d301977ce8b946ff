/**
  The text of a digest: the name of the hash function and 32 bytes in lower-case hexadecimal digits.
*/
module DigestText {
  import opened Basics
  import opened MerkleTree

  const PREFIX: string := "sha256:"

  predicate IsHexDigit(c: char) { '0' <= c <= '9' || 'a' <= c <= 'f' }

  function HexDigit(n: nat): (c: char)
    requires n < 16
    ensures IsHexDigit(c) && Nibble(c) == n
  {
    if n < 10 then ('0' as int + n) as char else ('a' as int + n - 10) as char
  }

  function Nibble(c: char): (n: nat)
    requires IsHexDigit(c)
    ensures n < 16
  {
    if c <= '9' then c as int - '0' as int else c as int - 'a' as int + 10
  }

  predicate IsDigest(s: string) {
    |s| == 71 && s[..7] == PREFIX && forall i :: 7 <= i < 71 ==> IsHexDigit(s[i])
  }

  function ByteAt(s: string, i: nat): byte
    requires IsDigest(s) && i < 32
  {
    (16 * Nibble(s[7 + 2 * i]) + Nibble(s[8 + 2 * i])) as byte
  }

  /** Decode a digest, or refuse a text that is none. */
  function Parse(s: string): (d: Option<Digest>)
    ensures d.Some? <==> IsDigest(s)
    ensures d.Some? ==> Sized(d.value)
  {
    if IsDigest(s) then Some(Digest(seq(32, i requires 0 <= i < 32 => ByteAt(s, i)))) else None
  }

  function Format(d: Digest): string {
    PREFIX + seq(2 * |d.bytes|, i requires 0 <= i < 2 * |d.bytes| =>
      HexDigit(if i % 2 == 0 then d.bytes[i / 2] as int / 16 else d.bytes[i / 2] as int % 16))
  }

  lemma ByteOfDigits(b: byte)
    ensures 16 * Nibble(HexDigit(b as int / 16)) + Nibble(HexDigit(b as int % 16)) == b as int
  {
  }

  /** Every digest of 32 bytes is read back from its text. */
  lemma ParseFormat(d: Digest)
    requires Sized(d)
    ensures Parse(Format(d)) == Some(d)
  {
    hide HexDigit, Nibble, Format, ByteAt;
    FormatIsDigest(d);
    forall i | 0 <= i < 32
      ensures ByteAt(Format(d), i) == d.bytes[i]
    {
      ByteRead(d, i);
    }
    assert Parse(Format(d)).value.bytes == d.bytes;
  }

  lemma FormatIsDigest(d: Digest)
    requires Sized(d)
    ensures IsDigest(Format(d))
  {
    hide HexDigit, Nibble;
    assert Format(d)[..7] == PREFIX;
  }

  lemma ByteRead(d: Digest, i: nat)
    requires Sized(d) && i < 32 && IsDigest(Format(d))
    ensures ByteAt(Format(d), i) == d.bytes[i]
  {
    hide HexDigit, Nibble, Format, IsDigest;
    ByteOfDigits(d.bytes[i]);
    DigitsAt(d, i);
  }

  lemma DigitsAt(d: Digest, i: nat)
    requires i < |d.bytes|
    ensures |Format(d)| == 7 + 2 * |d.bytes|
    ensures Format(d)[7 + 2 * i] == HexDigit(d.bytes[i] as int / 16)
    ensures Format(d)[8 + 2 * i] == HexDigit(d.bytes[i] as int % 16)
  {
    hide HexDigit;
    Halves(i);
  }

  lemma Halves(i: nat)
    ensures 2 * i / 2 == i && 2 * i % 2 == 0 && (2 * i + 1) / 2 == i && (2 * i + 1) % 2 == 1
  {
  }

  const HEX: string := "0123456789abcdef"

  lemma HexDigitIs(n: nat)
    requires n < 16
    ensures HexDigit(n) == HEX[n]
  {
  }

  /** The text names SHA-256, and then writes each byte with its larger half first. */
  lemma FormatReads(d: Digest, i: nat)
    requires Sized(d) && i < 32
    ensures |Format(d)| == 71 && Format(d)[..7] == "sha256:"
    ensures Format(d)[7 + 2 * i] == HEX[d.bytes[i] as int / 16] && Format(d)[8 + 2 * i] == HEX[d.bytes[i] as int % 16]
  {
    hide HexDigit, HEX;
    DigitsAt(d, i);
    FormatIsDigest(d);
    HexDigitIs(d.bytes[i] as int / 16);
    HexDigitIs(d.bytes[i] as int % 16);
  }

  lemma DigitOfNibble(c: char)
    requires IsHexDigit(c)
    ensures HexDigit(Nibble(c)) == c
  {
  }

  lemma DigitsOfByte(s: string, k: nat)
    requires IsDigest(s) && k < 32
    ensures HexDigit(ByteAt(s, k) as int / 16) == s[7 + 2 * k] && HexDigit(ByteAt(s, k) as int % 16) == s[8 + 2 * k]
  {
    var high, low := Nibble(s[7 + 2 * k]), Nibble(s[8 + 2 * k]);
    assert (16 * high + low) / 16 == high && (16 * high + low) % 16 == low;
    DigitOfNibble(s[7 + 2 * k]);
    DigitOfNibble(s[8 + 2 * k]);
  }

  /** A digest has one text only. */
  lemma FormatParse(s: string)
    requires IsDigest(s)
    ensures Format(Parse(s).value) == s
  {
    var d := Parse(s).value;
    var text := Format(d);
    assert |text| == 71;
    forall i | 0 <= i < 71
      ensures text[i] == s[i]
    {
      if i < 7 {
        assert text[i] == PREFIX[i] && s[i] == s[..7][i];
      } else {
        var k := (i - 7) / 2;
        assert d.bytes[k] == ByteAt(s, k);
        DigitsOfByte(s, k);
      }
    }
  }
}
