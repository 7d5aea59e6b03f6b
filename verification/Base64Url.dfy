/** The unpadded base64url text of Node's buffers: section 5 of RFC 4648. */
module Base64Url {
  import opened Utf8

  type Sextet = n: nat | n < 64

  function Letter(n: Sextet): char {
    if n < 26 then ('A' as int + n) as char
    else if n < 52 then ('a' as int + n - 26) as char
    else if n < 62 then ('0' as int + n - 52) as char
    else if n == 62 then '-' else '_'
  }

  predicate InAlphabet(c: char) {
    'A' <= c <= 'Z' || 'a' <= c <= 'z' || '0' <= c <= '9' || c == '-' || c == '_'
  }

  predicate IsBase64Url(s: string) {
    s != "" && forall i | 0 <= i < |s| :: InAlphabet(s[i])
  }

  function SextetOf(c: char): Sextet
    requires InAlphabet(c)
  {
    if c <= '-' then 62
    else if c <= '9' then c as int - '0' as int + 52
    else if c <= 'Z' then c as int - 'A' as int
    else if c == '_' then 63
    else c as int - 'a' as int + 26
  }

  function ToText(bytes: seq<Byte>): string {
    if |bytes| == 0 then ""
    else if |bytes| == 1 then [Letter(bytes[0] / 4), Letter(bytes[0] % 4 * 16)]
    else if |bytes| == 2 then
      [Letter(bytes[0] / 4), Letter(bytes[0] % 4 * 16 + bytes[1] / 16), Letter(bytes[1] % 16 * 4)]
    else
      [Letter(bytes[0] / 4), Letter(bytes[0] % 4 * 16 + bytes[1] / 16),
       Letter(bytes[1] % 16 * 4 + bytes[2] / 64), Letter(bytes[2] % 64)]
      + ToText(bytes[3..])
  }

  /** The bytes that two neighbouring sextets of a group share. */
  function First(x: Sextet, y: Sextet): Byte {
    x * 4 + y / 16
  }

  function Second(y: Sextet, z: Sextet): Byte {
    y % 16 * 16 + z / 4
  }

  function Third(z: Sextet, w: Sextet): Byte {
    z % 4 * 64 + w
  }

  /** Four letters carry three bytes; what is left over carries whole bytes only. */
  function ToBytes(s: string): seq<Byte>
    requires forall i | 0 <= i < |s| :: InAlphabet(s[i])
  {
    if |s| < 2 then []
    else if |s| == 2 then [First(SextetOf(s[0]), SextetOf(s[1]))]
    else if |s| == 3 then [First(SextetOf(s[0]), SextetOf(s[1])), Second(SextetOf(s[1]), SextetOf(s[2]))]
    else
      [First(SextetOf(s[0]), SextetOf(s[1])), Second(SextetOf(s[1]), SextetOf(s[2])),
       Third(SextetOf(s[2]), SextetOf(s[3]))]
      + ToBytes(s[4..])
  }

  lemma GroupValues(a: Byte, b: Byte, c: Byte)
    ensures First(a / 4, a % 4 * 16 + b / 16) == First(a / 4, a % 4 * 16) == a
    ensures Second(a % 4 * 16 + b / 16, b % 16 * 4 + c / 64) == Second(a % 4 * 16 + b / 16, b % 16 * 4) == b
    ensures Third(b % 16 * 4 + c / 64, c % 64) == c
  {
  }

  lemma GroupLetters()
    ensures forall n: Sextet :: InAlphabet(Letter(n)) && SextetOf(Letter(n)) == n
  {
    forall n: Sextet ensures InAlphabet(Letter(n)) && SextetOf(Letter(n)) == n { LetterIsInAlphabet(n); }
  }

  lemma LetterIsInAlphabet(n: Sextet)
    ensures InAlphabet(Letter(n)) && SextetOf(Letter(n)) == n
  {
  }

  lemma {:induction false} TextIsBase64Url(bytes: seq<Byte>)
    ensures forall i | 0 <= i < |ToText(bytes)| :: InAlphabet(ToText(bytes)[i])
    ensures bytes != [] ==> IsBase64Url(ToText(bytes))
    decreases |bytes|
  {
    if |bytes| >= 3 {
      TextIsBase64Url(bytes[3..]);
    }
  }

  lemma {:induction false} RoundTrip(bytes: seq<Byte>)
    ensures (forall i | 0 <= i < |ToText(bytes)| :: InAlphabet(ToText(bytes)[i])) && ToBytes(ToText(bytes)) == bytes
    decreases |bytes|
  {
    TextIsBase64Url(bytes);
    GroupLetters();
    hide Letter, SextetOf, InAlphabet, First, Second, Third;
    if |bytes| == 1 {
      GroupValues(bytes[0], 0, 0);
    } else if |bytes| == 2 {
      GroupValues(bytes[0], bytes[1], 0);
    } else if |bytes| >= 3 {
      GroupValues(bytes[0], bytes[1], bytes[2]);
      RoundTrip(bytes[3..]);
      assert ToText(bytes)[4..] == ToText(bytes[3..]);
      assert bytes == bytes[..3] + bytes[3..];
    }
  }
}
