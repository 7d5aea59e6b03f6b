/** UTF-8 as Node reads and writes it: section 3 of RFC 3629, with every ill-formed part of the input
    decoded as one U+FFFD. A `char` is a Unicode scalar value, so a `string` here is well formed. */
module Utf8 {
  type Byte = n: nat | n < 256

  function EncodeChar(c: char): (bytes: seq<Byte>)
    ensures 1 <= |bytes| <= 4
  {
    var n := c as int;
    if n < 0x80 then [n]
    else if n < 0x800 then [0xC0 + n / 64, 0x80 + n % 64]
    else if n < 0x1_0000 then [0xE0 + n / 4096, 0x80 + n / 64 % 64, 0x80 + n % 64]
    else [0xF0 + n / 262144, 0x80 + n / 4096 % 64, 0x80 + n / 64 % 64, 0x80 + n % 64]
  }

  function Encode(s: string): seq<Byte> {
    if s == "" then [] else EncodeChar(s[0]) + Encode(s[1..])
  }

  /** How many continuation bytes a lead byte announces; none for ASCII and for bytes that lead nothing. */
  function Announced(lead: Byte): (n: nat)
    ensures n <= 3
  {
    if 0xC2 <= lead <= 0xDF then 1
    else if 0xE0 <= lead <= 0xEF then 2
    else if 0xF0 <= lead <= 0xF4 then 3
    else 0
  }

  /** Whether byte `i` may continue the lead byte: the first continuation is narrowed so that no overlong
      form, surrogate or value past U+10FFFF is accepted. */
  predicate Continues(bytes: seq<Byte>, i: nat)
    requires 1 <= i < |bytes|
  {
    var lead, b := bytes[0], bytes[i];
    && 0x80 <= b <= 0xBF
    && (i == 1 ==>
          && (lead == 0xE0 ==> b >= 0xA0)
          && (lead == 0xED ==> b <= 0x9F)
          && (lead == 0xF0 ==> b >= 0x90)
          && (lead == 0xF4 ==> b <= 0x8F))
  }

  /** How many continuation bytes are there, up to the announced number. */
  function Found(bytes: seq<Byte>, i: nat): (n: nat)
    requires bytes != [] && i <= Announced(bytes[0]) && i < |bytes|
    ensures i <= n <= Announced(bytes[0]) && n < |bytes|
    ensures forall k | i < k <= n :: Continues(bytes, k)
    decreases 4 - i
  {
    if i < Announced(bytes[0]) && i + 1 < |bytes| && Continues(bytes, i + 1) then Found(bytes, i + 1) else i
  }

  /** The character of one complete sequence of `n` continuation bytes. */
  function Scalar(b: seq<Byte>, n: nat): char
    requires b != [] && 1 <= n == Announced(b[0]) && n < |b|
    requires forall k | 1 <= k <= n :: Continues(b, k)
  {
    assert Continues(b, 1);
    var lead: int, first: int := b[0], b[1] - 0x80;
    if n == 1 then ((lead - 0xC0) * 64 + first) as char
    else
      assert Continues(b, 2);
      var second: int := b[2] - 0x80;
      if n == 2 then ((lead - 0xE0) * 4096 + first * 64 + second) as char
      else
        assert Continues(b, 3);
        var third: int := b[3] - 0x80;
        ((lead - 0xF0) * 262144 + first * 4096 + second * 64 + third) as char
  }

  const REPLACEMENT: char := '\U{FFFD}'

  function Decode(bytes: seq<Byte>): string {
    if bytes == [] then ""
    else if bytes[0] < 0x80 then [bytes[0] as char] + Decode(bytes[1..])
    else
      var n := Found(bytes, 0);
      if n > 0 && n == Announced(bytes[0]) then [Scalar(bytes, n)] + Decode(bytes[n + 1..])
      else [REPLACEMENT] + Decode(bytes[n + 1..])
  }

  lemma TwoBytes(c: char)
    requires 0x80 <= c as int < 0x800
    ensures var b := EncodeChar(c); Announced(b[0]) == 1 && Continues(b, 1) && Scalar(b, 1) == c
  {
  }

  lemma ThreeBytes(c: char)
    requires 0x800 <= c as int < 0x1_0000
    ensures var b := EncodeChar(c); Announced(b[0]) == 2 && Continues(b, 1) && Continues(b, 2) && Scalar(b, 2) == c
  {
    var n := c as int;
    assert n == n / 4096 * 4096 + n / 64 % 64 * 64 + n % 64;
  }

  lemma FourBytes(c: char)
    requires 0x1_0000 <= c as int
    ensures var b := EncodeChar(c);
            Announced(b[0]) == 3 && Continues(b, 1) && Continues(b, 2) && Continues(b, 3) && Scalar(b, 3) == c
  {
    var n := c as int;
    var a, b := n / 64, n / 4096;
    assert b == a / 64 && n / 262144 == b / 64;
    assert n == a * 64 + n % 64 && a == b * 64 + a % 64 && b == b / 64 * 64 + b % 64;
    assert n == n / 262144 * 262144 + b % 64 * 4096 + a % 64 * 64 + n % 64;
  }

  /** As many continuation bytes are found as are announced, if they are there. */
  lemma FoundAll(bytes: seq<Byte>, n: nat)
    requires 1 <= n < |bytes| && Announced(bytes[0]) == n && forall k | 1 <= k <= n :: Continues(bytes, k)
    ensures Found(bytes, 0) == n
  {
    assert Found(bytes, n) == n;
    if n > 1 { assert Found(bytes, n - 1) == n; }
    if n > 2 { assert Found(bytes, n - 2) == n; }
  }

  lemma SameScalar(a: seq<Byte>, b: seq<Byte>, n: nat)
    requires 1 <= n < |a| <= |b| && Announced(a[0]) == n && forall k | 1 <= k <= n :: Continues(a, k)
    requires forall k | 0 <= k <= n :: a[k] == b[k]
    ensures (forall k | 1 <= k <= n :: Continues(b, k)) && Scalar(a, n) == Scalar(b, n)
  {
    assert forall k | 1 <= k <= n :: Continues(a, k) && a[k] == b[k];
  }

  lemma OneChar(c: char, rest: seq<Byte>)
    ensures Decode(EncodeChar(c) + rest) == [c] + Decode(rest)
  {
    var own, bytes := EncodeChar(c), EncodeChar(c) + rest;
    assert bytes[|own|..] == rest && forall i | 0 <= i < |own| :: bytes[i] == own[i];
    if |own| > 1 {
      if |own| == 2 {
        TwoBytes(c);
      } else if |own| == 3 {
        ThreeBytes(c);
      } else {
        FourBytes(c);
      }
      hide EncodeChar;
      FoundAll(bytes, |own| - 1);
      SameScalar(own, bytes, |own| - 1);
    }
  }

  /** Decoding what was encoded gives the text back. */
  lemma {:induction false} RoundTrip(s: string)
    ensures Decode(Encode(s)) == s
  {
    if s != "" {
      OneChar(s[0], Encode(s[1..]));
      RoundTrip(s[1..]);
    }
  }
}
