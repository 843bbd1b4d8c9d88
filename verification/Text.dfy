/** Renderings of numbers and text as the program prints them: decimal (strconv),
    UTF-8 (Go strings are bytes) and lower-case hexadecimal (section 8 of RFC 4648),
    each with the inverse that makes it injective. */
module Text {
  import opened Wrappers

  type Byte = b: int | 0 <= b < 256

  // Decimal

  function Digit(d: int): char
    requires 0 <= d < 10
  {
    '0' + d as char
  }

  predicate IsDigit(c: char) { '0' <= c <= '9' }

  function Decimal(n: nat): string {
    if n < 10 then [Digit(n)] else Decimal(n / 10) + [Digit(n % 10)]
  }

  /** Reads digits only; anything else has no value. */
  function ParseNat(s: string): Option<nat> {
    if s == "" || !IsDigit(s[|s| - 1]) then None
    else
      var d := s[|s| - 1] as int - '0' as int;
      if |s| == 1 then Some(d)
      else
        match ParseNat(s[..|s| - 1])
        case None => None
        case Some(n) => Some(10 * n + d)
  }

  lemma {:induction false} DecimalDigits(n: nat)
    ensures Decimal(n) != "" && forall i :: 0 <= i < |Decimal(n)| ==> IsDigit(Decimal(n)[i])
  {
    if n >= 10 {
      DecimalDigits(n / 10);
    }
  }

  lemma {:induction false} ParseDecimal(n: nat)
    ensures ParseNat(Decimal(n)) == Some(n)
  {
    if n >= 10 {
      ParseDecimal(n / 10);
      DecimalDigits(n / 10);
      var s := Decimal(n);
      assert s[..|s| - 1] == Decimal(n / 10);
    }
  }

  // UTF-8

  function CharBytes(c: char): seq<Byte> {
    var n := c as int;
    if n < 0x80 then [n]
    else if n < 0x800 then [0xC0 + n / 0x40, 0x80 + n % 0x40]
    else if n < 0x1_0000 then [0xE0 + n / 0x1000, 0x80 + n / 0x40 % 0x40, 0x80 + n % 0x40]
    else [0xF0 + n / 0x4_0000, 0x80 + n / 0x1000 % 0x40, 0x80 + n / 0x40 % 0x40, 0x80 + n % 0x40]
  }

  function Utf8(s: string): seq<Byte> {
    if s == "" then [] else CharBytes(s[0]) + Utf8(s[1..])
  }

  /** The code point a character's bytes stand for. */
  function CodePoint(b: seq<int>): int {
    if |b| == 1 then b[0]
    else if |b| == 2 then (b[0] - 0xC0) * 0x40 + (b[1] - 0x80)
    else if |b| == 3 then (b[0] - 0xE0) * 0x1000 + (b[1] - 0x80) * 0x40 + (b[2] - 0x80)
    else if |b| == 4 then (b[0] - 0xF0) * 0x4_0000 + (b[1] - 0x80) * 0x1000 + (b[2] - 0x80) * 0x40 + (b[3] - 0x80)
    else 0
  }

  lemma SplitSix(n: nat)
    ensures n == n / 0x1000 * 0x1000 + n / 0x40 % 0x40 * 0x40 + n % 0x40
  {
    assert n == n / 0x40 * 0x40 + n % 0x40;
    assert n / 0x40 == n / 0x40 / 0x40 * 0x40 + n / 0x40 % 0x40;
  }

  lemma CodePointOfChar(c: char)
    ensures CodePoint(CharBytes(c)) == c as int
  {
    var n := c as int;
    SplitSix(n);
    var m := n / 0x1000;
    assert m == m / 0x40 * 0x40 + m % 0x40 && n / 0x4_0000 == m / 0x40;
  }

  /** The first byte tells how many bytes the character has. */
  function LeadLength(b: Byte): nat {
    if b < 0x80 then 1 else if b < 0xE0 then 2 else if b < 0xF0 then 3 else 4
  }

  lemma LengthFromLead(c: char)
    ensures |CharBytes(c)| == LeadLength(CharBytes(c)[0])
  {
  }

  /** The encodings of two different characters differ before either ends. */
  lemma CharBytesPrefixFree(c: char, d: char, x: seq<Byte>, y: seq<Byte>)
    requires CharBytes(c) + x == CharBytes(d) + y
    ensures c == d
  {
    var cs, ds := CharBytes(c), CharBytes(d);
    LengthFromLead(c);
    LengthFromLead(d);
    assert (cs + x)[0] == cs[0] && (ds + y)[0] == ds[0];
    assert cs == (cs + x)[..|cs|] == (ds + y)[..|ds|] == ds;
    CodePointOfChar(c);
    CodePointOfChar(d);
  }

  lemma {:induction false} Utf8Injective(s: string, t: string)
    requires Utf8(s) == Utf8(t)
    ensures s == t
  {
    if s != "" && t != "" {
      CharBytesPrefixFree(s[0], t[0], Utf8(s[1..]), Utf8(t[1..]));
      var k := |CharBytes(s[0])|;
      assert Utf8(s)[k..] == Utf8(s[1..]) && Utf8(t)[k..] == Utf8(t[1..]);
      Utf8Injective(s[1..], t[1..]);
      assert s == [s[0]] + s[1..] && t == [t[0]] + t[1..];
    }
  }

  // Lower-case hexadecimal

  const HEX := "0123456789abcdef"

  predicate IsHex(c: char) { IsDigit(c) || 'a' <= c <= 'f' }

  function HexValue(c: char): (v: nat)
    requires IsHex(c)
    ensures v < 16 && HEX[v] == c
  {
    if IsDigit(c) then c as int - '0' as int else c as int - 'a' as int + 10
  }

  function HexEncode(bytes: seq<Byte>): string {
    if bytes == [] then "" else [HEX[bytes[0] / 16], HEX[bytes[0] % 16]] + HexEncode(bytes[1..])
  }

  function HexDecode(s: string): Option<seq<Byte>> {
    if s == "" then Some([])
    else if |s| == 1 || !IsHex(s[0]) || !IsHex(s[1]) then None
    else
      match HexDecode(s[2..])
      case None => None
      case Some(rest) => Some([16 * HexValue(s[0]) + HexValue(s[1])] + rest)
  }

  lemma HexDigits(v: nat)
    requires v < 16
    ensures IsHex(HEX[v]) && HexValue(HEX[v]) == v
  {
  }

  lemma {:induction false} HexEncodeDigits(bytes: seq<Byte>)
    ensures forall i :: 0 <= i < |HexEncode(bytes)| ==> IsHex(HexEncode(bytes)[i])
  {
    if bytes != [] {
      HexDigits(bytes[0] / 16);
      HexDigits(bytes[0] % 16);
      HexEncodeDigits(bytes[1..]);
    }
  }

  /** Decoding undoes encoding. */
  lemma {:induction false} HexRoundTrip(bytes: seq<Byte>)
    ensures HexDecode(HexEncode(bytes)) == Some(bytes)
  {
    if bytes != [] {
      var (hi, lo) := (bytes[0] / 16, bytes[0] % 16);
      HexDigits(hi);
      HexDigits(lo);
      HexRoundTrip(bytes[1..]);
      var s := HexEncode(bytes);
      assert s[0] == HEX[hi] && s[1] == HEX[lo] && s[2..] == HexEncode(bytes[1..]);
      assert bytes == [16 * hi + lo] + bytes[1..];
    }
  }
}
