/** Cutting oversized bodies (message-body-limits.ts). A text is its UTF-16 code units; its UTF-8 length
    (section 3 of RFC 3629) counts a surrogate without its partner as the three bytes of U+FFFD, as Node
    writes it. */
module BodyLimits {
  type CodeUnit = n: nat | n < 0x1_0000
  type Text = seq<CodeUnit>

  const LESS_THAN: CodeUnit := 0x3C
  const GREATER_THAN: CodeUnit := 0x3E
  const LINE_FEED: CodeUnit := 0x0A

  predicate IsHigh(u: CodeUnit) {
    0xD800 <= u <= 0xDBFF
  }

  predicate IsLow(u: CodeUnit) {
    0xDC00 <= u <= 0xDFFF
  }

  predicate StartsPair(s: Text) {
    |s| >= 2 && IsHigh(s[0]) && IsLow(s[1])
  }

  function Bytes(s: Text): nat {
    if s == [] then 0
    else if StartsPair(s) then 4 + Bytes(s[2..])
    else (if s[0] < 0x80 then 1 else if s[0] < 0x800 then 2 else 3) + Bytes(s[1..])
  }

  predicate WellFormed(s: Text) {
    s == []
    || (if StartsPair(s) then WellFormed(s[2..]) else !IsHigh(s[0]) && !IsLow(s[0]) && WellFormed(s[1..]))
  }

  // ----- Prefixes -----

  lemma {:induction false} PrefixGrows(s: Text, i: nat)
    requires i < |s|
    ensures Bytes(s[..i]) <= Bytes(s[..i + 1])
    decreases |s|
  {
    if StartsPair(s) {
      if i >= 2 {
        PrefixGrows(s[2..], i - 2);
        assert s[..i][2..] == s[2..][..i - 2] && s[..i + 1][2..] == s[2..][..i - 1];
      } else if i == 1 {
        assert s[..2][2..] == [] && s[..1][1..] == [];
      }
    } else if i > 0 {
      PrefixGrows(s[1..], i - 1);
      assert s[..i][1..] == s[1..][..i - 1] && s[..i + 1][1..] == s[1..][..i];
    }
  }

  /** The UTF-8 length of a prefix never shrinks as the prefix grows, split pairs included. */
  lemma {:induction false} PrefixMonotone(s: Text, i: nat, j: nat)
    requires i <= j <= |s|
    ensures Bytes(s[..i]) <= Bytes(s[..j])
    decreases j - i
  {
    if i < j {
      PrefixMonotone(s, i, j - 1);
      PrefixGrows(s, j - 1);
    }
  }

  /** A prefix of a well-formed text is well formed exactly when it does not end inside a pair. */
  lemma {:induction false} PrefixWellFormed(s: Text, i: nat)
    requires WellFormed(s) && i <= |s|
    ensures WellFormed(s[..i]) <==> i == 0 || !IsHigh(s[i - 1])
    decreases |s|
  {
    if i > 0 {
      if StartsPair(s) {
        if i >= 2 {
          PrefixWellFormed(s[2..], i - 2);
          assert s[..i][2..] == s[2..][..i - 2];
        }
      } else {
        PrefixWellFormed(s[1..], i - 1);
        assert s[..i][1..] == s[1..][..i - 1];
      }
    }
  }

  /** Inside a well-formed text a high surrogate stands alone: the unit before it ends a character. */
  lemma {:induction false} BeforeHigh(s: Text, i: nat)
    requires WellFormed(s) && i < |s| && IsHigh(s[i])
    ensures i == 0 || !IsHigh(s[i - 1])
    decreases |s|
  {
    if StartsPair(s) {
      if i >= 2 {
        BeforeHigh(s[2..], i - 2);
      }
    } else if i > 0 {
      BeforeHigh(s[1..], i - 1);
    }
  }

  /** `utf8Prefix`: for a well-formed text, its longest well-formed prefix that fits. */
  method Utf8Prefix(value: Text, maxBytes: nat) returns (cut: Text)
    ensures cut <= value && Bytes(cut) <= maxBytes
    ensures WellFormed(value) ==> WellFormed(cut)
    ensures WellFormed(value) ==>
              forall j | |cut| < j <= |value| && WellFormed(value[..j]) :: Bytes(value[..j]) > maxBytes
    ensures forall j | |cut| + 1 < j <= |value| :: Bytes(value[..j]) > maxBytes
  {
    var low, high := 0, |value|;
    while low < high
      invariant 0 <= low <= high <= |value|
      invariant Bytes(value[..low]) <= maxBytes
      invariant forall j | high < j <= |value| :: Bytes(value[..j]) > maxBytes
      decreases high - low
    {
      var middle := (low + high + 1) / 2;
      if Bytes(value[..middle]) <= maxBytes {
        low := middle;
      } else {
        forall j | middle <= j <= |value| ensures Bytes(value[..j]) > maxBytes {
          PrefixMonotone(value, middle, j);
        }
        high := middle - 1;
      }
    }
    cut := value[..low];
    if WellFormed(value) {
      PrefixWellFormed(value, low);
    }
    if low > 0 && IsHigh(cut[low - 1]) {
      if WellFormed(value) {
        BeforeHigh(value, low - 1);
        PrefixWellFormed(value, low - 1);
      }
      PrefixGrows(value, low - 1);
      cut := cut[..low - 1];
      assert cut == value[..low - 1];
    }
  }

  // ----- Tags -----

  /** `lastIndexOf`, with -1 for none. */
  function LastIndexOf(s: Text, u: CodeUnit): (i: int)
    ensures -1 <= i < |s|
    ensures i >= 0 ==> s[i] == u
    ensures forall k | i < k < |s| :: s[k] != u
  {
    if s == [] then -1
    else if s[|s| - 1] == u then |s| - 1
    else LastIndexOf(s[..|s| - 1], u)
  }

  /** An opened tag that nothing closes: it would swallow whatever is appended. */
  ghost predicate EndsInsideTag(s: Text) {
    exists i | 0 <= i < |s| :: s[i] == LESS_THAN && forall k | i < k < |s| :: s[k] != GREATER_THAN
  }

  function CutHtmlPrefix(value: Text): Text {
    var lastOpen := LastIndexOf(value, LESS_THAN);
    if lastOpen > LastIndexOf(value, GREATER_THAN) then value[..lastOpen] else value
  }

  /** Two openings that nothing closes. */
  ghost predicate TwoOpenTags(s: Text) {
    exists i, j | 0 <= i < j < |s| ::
      s[i] == LESS_THAN && s[j] == LESS_THAN && forall k | i < k < |s| :: s[k] != GREATER_THAN
  }

  /** The cut takes one partial tag away: the rest still ends inside a tag exactly when two were open. */
  lemma CutLeavesATagExactlyIfTwoWereOpen(value: Text)
    ensures EndsInsideTag(CutHtmlPrefix(value)) <==> TwoOpenTags(value)
  {
    var lastOpen, lastClose := LastIndexOf(value, LESS_THAN), LastIndexOf(value, GREATER_THAN);
    var cut := CutHtmlPrefix(value);
    if EndsInsideTag(cut) {
      var i :| 0 <= i < |cut| && cut[i] == LESS_THAN && forall k | i < k < |cut| :: cut[k] != GREATER_THAN;
      assert value[i] == LESS_THAN;
      assert value[lastOpen] == LESS_THAN;
    }
    if TwoOpenTags(value) {
      var i, j :| 0 <= i < j < |value| && value[i] == LESS_THAN && value[j] == LESS_THAN
                  && forall k | i < k < |value| :: value[k] != GREATER_THAN;
      assert cut[i] == LESS_THAN;
    }
  }

  // ----- The limit -----

  /** Appending never costs more than the two parts; it costs less where it completes a pair. */
  lemma {:induction false} BytesJoin(a: Text, b: Text)
    ensures Bytes(a + b) <= Bytes(a) + Bytes(b)
    decreases |a|
  {
    if a == [] {
      assert a + b == b;
    } else if StartsPair(a) {
      assert (a + b)[2..] == a[2..] + b;
      BytesJoin(a[2..], b);
    } else if StartsPair(a + b) {
      assert a[1..] == [] && (a + b)[2..] == b[1..];
    } else {
      assert (a + b)[1..] == a[1..] + b;
      BytesJoin(a[1..], b);
    }
  }

  lemma {:induction false} WellFormedJoin(a: Text, b: Text)
    requires WellFormed(a) && WellFormed(b)
    ensures WellFormed(a + b)
    decreases |a|
  {
    if a == [] {
      assert a + b == b;
    } else if StartsPair(a) {
      assert (a + b)[2..] == a[2..] + b;
      WellFormedJoin(a[2..], b);
    } else {
      assert (a + b)[1..] == a[1..] + b;
      WellFormedJoin(a[1..], b);
    }
  }

  function Tail(notice: Text, html: bool): Text {
    if html then notice else [LINE_FEED, LINE_FEED] + notice
  }

  /** `limitBody`: a body that fits is untouched; any other, whether or not it is well formed, keeps a
      prefix that fits, so what is stored exceeds the limit by at most the notice, and no pair is torn. */
  method LimitBody(value: Text, maxBytes: nat, notice: Text, html: bool) returns (limited: Text)
    ensures Bytes(value) <= maxBytes ==> limited == value
    ensures Bytes(value) > maxBytes ==> Bytes(limited) <= maxBytes + Bytes(notice) + if html then 0 else 2
    ensures Bytes(value) > maxBytes ==> exists n | 0 <= n < |value| :: limited == value[..n] + Tail(notice, html)
    ensures WellFormed(value) && WellFormed(notice) ==> WellFormed(limited)
  {
    if Bytes(value) <= maxBytes {
      return value;
    }
    var cut := Utf8Prefix(value, maxBytes);
    TailIs(notice, html);
    KeptFits(cut);
    if html {
      limited := CutHtmlPrefix(cut) + notice;
    } else {
      limited := cut + [LINE_FEED, LINE_FEED] + notice;
      assert limited == cut + ([LINE_FEED, LINE_FEED] + notice);
    }
    ghost var kept := if html then CutHtmlPrefix(cut) else cut;
    assert limited == kept + Tail(notice, html);
    hide *;
    KeptPart(value, kept, maxBytes);
    Appended(kept, Tail(notice, html));
  }

  lemma TailIs(notice: Text, html: bool)
    ensures Bytes(Tail(notice, html)) == Bytes(notice) + if html then 0 else 2
    ensures WellFormed(Tail(notice, html)) <==> WellFormed(notice)
  {
    var tail := Tail(notice, html);
    if !html {
      assert tail[1..] == [LINE_FEED] + notice && tail[1..][1..] == notice;
    }
  }

  /** What fits of a text that does not is a part of it. */
  lemma KeptPart(value: Text, kept: Text, maxBytes: nat)
    requires kept <= value && Bytes(kept) <= maxBytes < Bytes(value)
    ensures |kept| < |value| && kept == value[..|kept|]
  {
    assert |kept| == |value| ==> kept == value;
  }

  lemma Appended(a: Text, b: Text)
    ensures Bytes(a + b) <= Bytes(a) + Bytes(b) && (WellFormed(a) && WellFormed(b) ==> WellFormed(a + b))
  {
    BytesJoin(a, b);
    if WellFormed(a) && WellFormed(b) {
      WellFormedJoin(a, b);
    }
  }

  /** Dropping a partial tag cuts just before a `<`, so never inside a pair. */
  lemma KeptFits(cut: Text)
    ensures var kept := CutHtmlPrefix(cut);
            kept <= cut && Bytes(kept) <= Bytes(cut) && (WellFormed(cut) ==> WellFormed(kept))
  {
    var n := |CutHtmlPrefix(cut)|;
    assert CutHtmlPrefix(cut) == cut[..n] && cut[..|cut|] == cut;
    PrefixMonotone(cut, n, |cut|);
    if WellFormed(cut) {
      PrefixWellFormed(cut, n);
      if n < |cut| && n > 0 && IsHigh(cut[n - 1]) {
        HighIsFollowed(cut, n - 1);
      }
    }
  }

  lemma {:induction false} HighIsFollowed(s: Text, i: nat)
    requires WellFormed(s) && i + 1 < |s| && IsHigh(s[i])
    ensures IsLow(s[i + 1])
    decreases |s|
  {
    if StartsPair(s) {
      if i >= 2 {
        HighIsFollowed(s[2..], i - 2);
      }
    } else if i > 0 {
      HighIsFollowed(s[1..], i - 1);
    }
  }
}
