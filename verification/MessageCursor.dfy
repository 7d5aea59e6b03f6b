/** The opaque cursor of the message list (message-cursor.ts). Texts are well-formed Unicode. */
module MessageCursor {
  import Base64Url
  import Utf8

  const MAX_LENGTH: nat := 512
  const SEPARATOR: char := '\0'

  /** One position in the list's total order. */
  datatype Position = Position(sortKey: string, id: string)

  datatype Reason = Empty | TooLong | NotBase64Url | NotThreeParts | OtherVersion(version: string)
    | EmptySortKey | EmptyId
  datatype Decoded = Ok(position: Position) | Invalid(reason: Reason)

  function Text(p: Position): string {
    "1" + [SEPARATOR] + p.sortKey + [SEPARATOR] + p.id
  }

  function Encode(p: Position): string {
    Base64Url.ToText(Utf8.Encode(Text(p)))
  }

  function Split(s: string): (parts: seq<string>)
    ensures |parts| >= 1
  {
    if s == "" then [""]
    else
      var rest := Split(s[1..]);
      if s[0] == SEPARATOR then [""] + rest else [[s[0]] + rest[0]] + rest[1..]
  }

  function Decode(value: string): Decoded {
    if |value| == 0 then Invalid(Empty)
    else if |value| > MAX_LENGTH then Invalid(TooLong)
    else if !Base64Url.IsBase64Url(value) then Invalid(NotBase64Url)
    else
      var parts := Split(Utf8.Decode(Base64Url.ToBytes(value)));
      if |parts| != 3 then Invalid(NotThreeParts)
      else if parts[0] != "1" then Invalid(OtherVersion(parts[0]))
      else if |parts[1]| == 0 then Invalid(EmptySortKey)
      else if |parts[2]| == 0 then Invalid(EmptyId)
      else Ok(Position(parts[1], parts[2]))
  }

  function Separators(s: string): nat {
    if s == "" then 0 else (if s[0] == SEPARATOR then 1 else 0) + Separators(s[1..])
  }

  /** One part more than there are separators. */
  lemma {:induction false} PartsCount(s: string)
    ensures |Split(s)| == Separators(s) + 1
  {
    if s != "" {
      PartsCount(s[1..]);
    }
  }

  lemma {:induction false} SeparatorsJoin(a: string, b: string)
    ensures Separators(a + b) == Separators(a) + Separators(b)
  {
    if a == "" {
      assert a + b == b;
    } else {
      assert (a + b)[1..] == a[1..] + b;
      SeparatorsJoin(a[1..], b);
    }
  }

  lemma {:induction false} NoSeparator(s: string)
    ensures Separators(s) == 0 <==> SEPARATOR !in s
    ensures SEPARATOR !in s ==> Split(s) == [s]
  {
    if s != "" {
      NoSeparator(s[1..]);
      assert s == [s[0]] + s[1..];
    }
  }

  lemma {:induction false} FirstPart(a: string, rest: string)
    requires SEPARATOR !in a
    ensures Split(a + [SEPARATOR] + rest) == [a] + Split(rest)
  {
    var s := a + [SEPARATOR] + rest;
    if a == "" {
      assert s[1..] == rest;
    } else {
      assert s[1..] == a[1..] + [SEPARATOR] + rest;
      FirstPart(a[1..], rest);
      assert a == [a[0]] + a[1..];
    }
  }

  lemma SeparatorsOf(p: Position)
    ensures Separators(Text(p)) == 2 + Separators(p.sortKey) + Separators(p.id)
  {
    SeparatorsJoin("1" + [SEPARATOR] + p.sortKey + [SEPARATOR], p.id);
    SeparatorsJoin("1" + [SEPARATOR] + p.sortKey, [SEPARATOR]);
    SeparatorsJoin("1" + [SEPARATOR], p.sortKey);
    assert Separators([SEPARATOR]) == 1;
    assert ("1" + [SEPARATOR])[1..] == [SEPARATOR];
  }

  lemma PartsOf(p: Position)
    requires SEPARATOR !in p.sortKey && SEPARATOR !in p.id
    ensures Split(Text(p)) == ["1", p.sortKey, p.id]
  {
    assert Text(p) == "1" + [SEPARATOR] + (p.sortKey + [SEPARATOR] + p.id);
    FirstPart("1", p.sortKey + [SEPARATOR] + p.id);
    FirstPart(p.sortKey, p.id);
    NoSeparator(p.id);
  }

  /** What a cursor can carry. */
  ghost predicate Carries(p: Position) {
    && p.sortKey != "" && p.id != ""
    && SEPARATOR !in p.sortKey && SEPARATOR !in p.id
    && |Encode(p)| <= MAX_LENGTH
  }

  /** Decoding a cursor gives its position back exactly when the cursor can carry it. */
  lemma RoundTrip(p: Position)
    ensures Decode(Encode(p)) == Ok(p) <==> Carries(p)
  {
    var bytes := Utf8.Encode(Text(p));
    Utf8.RoundTrip(Text(p));
    Base64Url.RoundTrip(bytes);
    Base64Url.TextIsBase64Url(bytes);
    assert Text(p)[0] == '1' && bytes != [];
    assert Utf8.Decode(Base64Url.ToBytes(Encode(p))) == Text(p);
    NoSeparator(p.sortKey);
    NoSeparator(p.id);
    SeparatorsOf(p);
    PartsCount(Text(p));
    if SEPARATOR !in p.sortKey && SEPARATOR !in p.id {
      PartsOf(p);
    }
  }

  /** Distinct positions have distinct cursors, even those too long to be read back. */
  lemma EncodeInjective(p: Position, q: Position)
    requires SEPARATOR !in p.sortKey + p.id && SEPARATOR !in q.sortKey + q.id
    ensures Encode(p) == Encode(q) ==> p == q
  {
    Utf8.RoundTrip(Text(p));
    Utf8.RoundTrip(Text(q));
    Base64Url.RoundTrip(Utf8.Encode(Text(p)));
    Base64Url.RoundTrip(Utf8.Encode(Text(q)));
    PartsOf(p);
    PartsOf(q);
    assert Encode(p) == Encode(q) ==> Text(p) == Text(q);
  }
}
