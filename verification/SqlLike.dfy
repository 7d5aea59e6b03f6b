/** SQLite's LIKE with `ESCAPE '\'` on texts without NUL, and the literal search it is used for
    (message-search.ts, message-filters.ts, message-storage.ts). */
module SqlLike {
  /** LIKE ignores the case of ASCII letters only. */
  function FoldChar(c: char): char {
    if 'A' <= c <= 'Z' then ((c as int) + 32) as char else c
  }

  function Fold(s: string): (folded: string)
    ensures |folded| == |s|
  {
    seq(|s|, i requires 0 <= i < |s| => FoldChar(s[i]))
  }

  predicate Like(pattern: string, text: string)
    decreases |pattern| + |text|
  {
    if pattern == "" then text == ""
    else if pattern[0] == '%' then
      Like(pattern[1..], text) || (text != "" && Like(pattern, text[1..]))
    else if pattern[0] == '_' then
      text != "" && Like(pattern[1..], text[1..])
    else if pattern[0] == '\\' then
      && |pattern| > 1 && text != ""
      && FoldChar(pattern[1]) == FoldChar(text[0]) && Like(pattern[2..], text[1..])
    else
      text != "" && FoldChar(pattern[0]) == FoldChar(text[0]) && Like(pattern[1..], text[1..])
  }

  predicate IsWildcard(c: char) {
    c == '\\' || c == '%' || c == '_'
  }

  /** `ftsLikeEscape`. */
  function Escape(value: string): string {
    if value == "" then ""
    else (if IsWildcard(value[0]) then ['\\', value[0]] else [value[0]]) + Escape(value[1..])
  }

  predicate StartsWith(text: string, needle: string) {
    |needle| <= |text| && text[..|needle|] == needle
  }

  /** `String.includes`. */
  predicate Includes(text: string, needle: string) {
    exists i | 0 <= i <= |text| :: StartsWith(text[i..], needle)
  }

  lemma {:induction false} PercentMatchesAll(text: string)
    ensures Like("%", text)
    decreases |text|
  {
    if text != "" {
      PercentMatchesAll(text[1..]);
    }
    assert "%"[1..] == "";
  }

  lemma {:induction false} EscapedIsLiteral(q: string, text: string)
    ensures Like(Escape(q) + "%", text) <==> StartsWith(Fold(text), Fold(q))
    decreases |q|
  {
    var pattern := Escape(q) + "%";
    if q == "" {
      assert pattern == "%";
      PercentMatchesAll(text);
    } else {
      var head := if IsWildcard(q[0]) then ['\\', q[0]] else [q[0]];
      assert pattern == head + (Escape(q[1..]) + "%");
      assert pattern[|head|..] == Escape(q[1..]) + "%";
      if text != "" {
        EscapedIsLiteral(q[1..], text[1..]);
        assert Like(pattern, text) <==>
               FoldChar(q[0]) == FoldChar(text[0]) && Like(Escape(q[1..]) + "%", text[1..]);
        StartsOneLater(text, q);
      }
    }
  }

  lemma StartsOneLater(text: string, q: string)
    requires text != "" && q != ""
    ensures StartsWith(Fold(text), Fold(q)) <==>
            FoldChar(q[0]) == FoldChar(text[0]) && StartsWith(Fold(text[1..]), Fold(q[1..]))
  {
    var t, n := Fold(text), Fold(q);
    assert t == [FoldChar(text[0])] + Fold(text[1..]);
    assert n == [FoldChar(q[0])] + Fold(q[1..]);
    if |n| <= |t| {
      assert t[..|n|] == [t[0]] + t[1..][..|n| - 1];
      assert n == [n[0]] + n[1..];
    }
  }

  lemma {:induction false} LeadingPercent(pattern: string, text: string)
    ensures Like("%" + pattern, text) <==> exists i | 0 <= i <= |text| :: Like(pattern, text[i..])
    decreases |text|
  {
    var all := "%" + pattern;
    assert all[1..] == pattern && text[0..] == text;
    if text != "" {
      LeadingPercent(pattern, text[1..]);
      if Like(all, text[1..]) {
        var i :| 0 <= i <= |text[1..]| && Like(pattern, text[1..][i..]);
        assert text[1..][i..] == text[i + 1..];
      }
      if i :| 0 < i <= |text| && Like(pattern, text[i..]) {
        assert text[1..][i - 1..] == text[i..];
      }
    }
  }

  /** `%escape(q)%` matches exactly the texts that contain `q` literally, ASCII case aside. */
  lemma EscapedLikeIsLiteralSearch(q: string, text: string)
    ensures Like("%" + Escape(q) + "%", text) <==> Includes(Fold(text), Fold(q))
  {
    var inner := Escape(q) + "%";
    assert "%" + Escape(q) + "%" == "%" + inner;
    LeadingPercent(inner, text);
    forall i | 0 <= i <= |text|
      ensures Like(inner, text[i..]) <==> StartsWith(Fold(text)[i..], Fold(q))
    {
      EscapedIsLiteral(q, text[i..]);
      assert Fold(text[i..]) == Fold(text)[i..];
    }
  }
}
