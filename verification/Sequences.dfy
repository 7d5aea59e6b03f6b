/** Filtering sequences, for the code's loops that keep or count the elements passing a test. */
module Sequences {
  function Filter<T>(xs: seq<T>, p: T -> bool): seq<T> {
    if xs == [] then []
    else
      var rest := Filter(xs[..|xs| - 1], p);
      if p(xs[|xs| - 1]) then rest + [xs[|xs| - 1]] else rest
  }

  /** One more element of a prefix, as a loop meets it. */
  lemma FilterPrefix<T>(xs: seq<T>, i: nat, p: T -> bool)
    requires i < |xs|
    ensures Filter(xs[..i + 1], p) == Filter(xs[..i], p) + if p(xs[i]) then [xs[i]] else []
  {
    assert xs[..i + 1][..i] == xs[..i];
  }

  lemma FilterLast<T>(front: seq<T>, x: T, p: T -> bool)
    ensures Filter(front + [x], p) == if p(x) then Filter(front, p) + [x] else Filter(front, p)
  {
    assert (front + [x])[..|front|] == front;
  }

  /** What passes among the first elements comes first among all that pass. */
  lemma {:induction false} FilterStart<T>(xs: seq<T>, i: nat, p: T -> bool)
    requires i <= |xs|
    ensures Filter(xs[..i], p) <= Filter(xs, p)
    decreases |xs| - i
  {
    if i == |xs| {
      assert xs[..i] == xs;
    } else {
      FilterPrefix(xs, i, p);
      FilterStart(xs, i + 1, p);
    }
  }

  lemma {:induction false} FilterMembers<T>(xs: seq<T>, p: T -> bool)
    ensures forall x <- Filter(xs, p) :: x in xs && p(x)
    ensures forall x <- xs :: p(x) ==> x in Filter(xs, p)
    ensures |Filter(xs, p)| <= |xs|
  {
    if xs != [] {
      FilterMembers(xs[..|xs| - 1], p);
    }
  }

  ghost predicate NoneTwice<T>(s: seq<T>) {
    forall i, j | 0 <= i < j < |s| :: s[i] != s[j]
  }

  /** The two parts hold between them what the whole holds. */
  ghost predicate Splits<T>(a: seq<T>, b: seq<T>, whole: seq<T>) {
    multiset(a) + multiset(b) == multiset(whole)
  }

  /** One more element on either part is one more element of the whole. */
  lemma SplitsNext<T>(a: seq<T>, b: seq<T>, whole: seq<T>, x: T)
    requires Splits(a, b, whole)
    ensures Splits(a + [x], b, whole + [x]) && Splits(a, b + [x], whole + [x])
  {
  }

  /** Splitting by a test and its complement loses no element. */
  lemma {:induction false} FilterPartition<T>(xs: seq<T>, p: T -> bool, q: T -> bool)
    requires forall x <- xs :: q(x) <==> !p(x)
    ensures Splits(Filter(xs, p), Filter(xs, q), xs)
  {
    if xs == [] {
      assert Filter(xs, p) == xs == Filter(xs, q);
    } else {
      hide Splits;
      var front, last := xs[..|xs| - 1], xs[|xs| - 1];
      FilterPartition(front, p, q);
      assert xs == front + [last];
      SplitsNext(Filter(front, p), Filter(front, q), front, last);
    }
  }

  /** Splitting at the first occurrence of a separator is unambiguous. */
  lemma SplitUnique<T>(a: seq<T>, x: seq<T>, b: seq<T>, y: seq<T>, sep: T)
    requires sep !in a && sep !in b && a + [sep] + x == b + [sep] + y
    ensures a == b && x == y
  {
    var s := a + [sep] + x;
    assert s[|a|] == sep && s[|b|] == sep;
    assert forall i | 0 <= i < |a| :: s[i] == a[i];
    assert forall i | 0 <= i < |b| :: s[i] == b[i];
    assert |a| == |b|;
    assert a == s[..|a|] && b == s[..|b|] && x == s[|a| + 1..] && y == s[|b| + 1..];
  }

  /** Two places holding the same element count it twice. */
  lemma TwoPlaces<T>(s: seq<T>, i: nat, j: nat)
    requires i < j < |s|
    ensures s[i] == s[j] ==> multiset(s)[s[i]] >= 2
  {
    assert s == s[..i] + [s[i]] + s[i + 1..j] + [s[j]] + s[j + 1..];
  }

  /** What the elements weigh together. */
  function Weighed<T>(xs: seq<T>, weight: T -> nat): nat {
    if xs == [] then 0 else weight(xs[0]) + Weighed(xs[1..], weight)
  }

  lemma {:induction false} WeighedJoin<T>(a: seq<T>, b: seq<T>, weight: T -> nat)
    ensures Weighed(a + b, weight) == Weighed(a, weight) + Weighed(b, weight)
  {
    if a == [] {
      assert a + b == b;
    } else {
      assert (a + b)[1..] == a[1..] + b;
      WeighedJoin(a[1..], b, weight);
    }
  }
}
