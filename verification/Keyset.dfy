/** `ORDER BY … LIMIT n` over a table, and what reading a list page by page through it means. A
    table is a set of rows; the order is strict and tells any two of its rows apart. */
module Keyset {
  import opened Sequences

  ghost predicate Strict<T(!new)>(less: (T, T) -> bool) {
    && (forall x :: !less(x, x))
    && (forall x, y, z :: less(x, y) && less(y, z) ==> less(x, z))
  }

  ghost predicate Total<T>(rows: set<T>, less: (T, T) -> bool) {
    forall x <- rows, y <- rows :: x != y ==> less(x, y) || less(y, x)
  }

  ghost predicate Ascending<T>(s: seq<T>, less: (T, T) -> bool) {
    forall i, j | 0 <= i < j < |s| :: less(s[i], s[j])
  }

  ghost predicate Lists<T>(s: seq<T>, rows: set<T>, less: (T, T) -> bool) {
    && Ascending(s, less)
    && |s| == |rows|
    && (forall x <- s :: x in rows)
    && (forall x <- rows :: x in s)
  }

  predicate First<T(==)>(x: T, rows: set<T>, less: (T, T) -> bool) {
    x in rows && forall y <- rows :: y == x || less(x, y)
  }

  lemma {:induction false} HasFirst<T(!new)>(rows: set<T>, less: (T, T) -> bool)
    requires Strict(less) && Total(rows, less) && rows != {}
    ensures exists x :: First(x, rows, less)
  {
    var x :| x in rows;
    var rest := rows - {x};
    if rest == {} {
      assert forall y <- rows :: y == x by {
        forall y <- rows ensures y == x { assert y in rest || y == x; }
      }
      assert First(x, rows, less);
    } else {
      HasFirst(rest, less);
      var m :| First(m, rest, less);
      assert forall y <- rows :: y == x || y in rest;
      if less(x, m) {
        assert First(x, rows, less);
      } else {
        assert First(m, rows, less);
      }
    }
  }

  lemma Asymmetric<T(!new)>(less: (T, T) -> bool, x: T, y: T)
    requires Strict(less)
    ensures !(less(x, y) && less(y, x))
  {
  }

  /** The rows in order. */
  function OrderBy<T(==,!new)>(rows: set<T>, less: (T, T) -> bool): (s: seq<T>)
    requires Strict(less) && Total(rows, less)
    ensures Lists(s, rows, less)
  {
    if rows == {} then []
    else
      HasFirst(rows, less);
      var x :| First(x, rows, less);
      var rest := OrderBy(rows - {x}, less);
      assert forall y <- rows :: y == x || y in rows - {x};
      [x] + rest
  }

  /** Only one sequence lists a table in order. */
  lemma {:induction false} ListsUnique<T(!new)>(s: seq<T>, t: seq<T>, rows: set<T>, less: (T, T) -> bool)
    requires Strict(less) && Lists(s, rows, less) && Lists(t, rows, less)
    ensures s == t
    decreases |s|
  {
    if s != [] {
      HeadIsFirst(s, rows, less);
      HeadIsFirst(t, rows, less);
      ListsUnique(s[1..], t[1..], rows - {s[0]}, less);
      assert s == [s[0]] + s[1..] && t == [t[0]] + t[1..];
    }
  }

  lemma HeadIsFirst<T(!new)>(s: seq<T>, rows: set<T>, less: (T, T) -> bool)
    requires Strict(less) && Lists(s, rows, less) && s != []
    ensures First(s[0], rows, less)
    ensures Lists(s[1..], rows - {s[0]}, less)
  {
    forall x <- rows - {s[0]} ensures x in s[1..] {
      var i :| 0 <= i < |s| && s[i] == x;
      assert s[1..][i - 1] == x;
    }
    forall x <- s[1..] ensures x in rows - {s[0]} {
      assert less(s[0], x);
    }
    assert s[0] in rows;
  }

  /** `ORDER BY … LIMIT n`. */
  function Page<T(==,!new)>(rows: set<T>, less: (T, T) -> bool, limit: nat): seq<T>
    requires Strict(less) && Total(rows, less)
  {
    var s := OrderBy(rows, less);
    if |s| <= limit then s else s[..limit]
  }

  lemma ListIsEmptyExactly<T(!new)>(s: seq<T>, rows: set<T>, less: (T, T) -> bool)
    requires Lists(s, rows, less)
    ensures s == [] <==> rows == {}
  {
  }

  /** What the rows after the `k`-th give is the rest of the list. */
  lemma RestAfter<T(!new)>(s: seq<T>, rows: set<T>, later: set<T>, less: (T, T) -> bool, k: nat)
    requires Strict(less) && Lists(s, rows, less) && Total(later, less) && 0 < k <= |s|
    requires forall x :: x in later <==> x in rows && less(s[k - 1], x)
    ensures OrderBy(later, less) == s[k..]
  {
    var rest := s[k..];
    assert Ascending(rest, less);
    forall x <- later ensures x in rest {
      var i :| 0 <= i < |s| && s[i] == x;
      assert i >= k;
      assert rest[i - k] == x;
    }
    AscendingCount(rest, later, less);
    ListsUnique(OrderBy(later, less), rest, later, less);
  }

  /** An ascending sequence repeats nothing, so its length is the size of the set it lists. */
  lemma {:induction false} AscendingCount<T(!new)>(s: seq<T>, rows: set<T>, less: (T, T) -> bool)
    requires Strict(less) && Ascending(s, less)
    requires (forall x <- s :: x in rows) && (forall x <- rows :: x in s)
    ensures |s| == |rows|
    decreases |s|
  {
    if s != [] {
      var rest := rows - {s[0]};
      forall x <- s[1..] ensures x in rest { assert x != s[0]; }
      forall x <- rest ensures x in s[1..] {
        var i :| 0 <= i < |s| && s[i] == x;
        assert s[1..][i - 1] == x;
      }
      AscendingCount(s[1..], rest, less);
    }
  }

  /** A page read after the `k`-th row is the list's next part. */
  lemma PageIsNext<T(!new)>(list: seq<T>, rows: set<T>, later: set<T>, less: (T, T) -> bool, k: nat, limit: nat)
    requires Strict(less) && Total(later, less) && Lists(list, rows, less) && k <= |list|
    requires if k == 0 then later == rows else forall x :: x in later <==> x in rows && less(list[k - 1], x)
    ensures Page(later, less, limit) == if |list| - k <= limit then list[k..] else list[k..k + limit]
  {
    hide Strict, Total, Lists;
    if k == 0 {
      assert list[0..] == list;
      ListsUnique(list, OrderBy(later, less), rows, less);
    } else {
      RestAfter(list, rows, later, less, k);
    }
    assert OrderBy(later, less) == list[k..];
  }

  /** Whatever was kept of the list so far, its next element comes later. */
  lemma NextComesLater<T>(list: seq<T>, i: nat, keep: T -> bool, less: (T, T) -> bool)
    requires Ascending(list, less) && i < |list|
    ensures var kept := Filter(list[..i], keep);
            kept != [] ==> less(kept[|kept| - 1], list[i])
  {
    FilterMembers(list[..i], keep);
    var kept := Filter(list[..i], keep);
    if kept != [] {
      assert kept[|kept| - 1] in list[..i];
    }
  }

  lemma {:induction false} FilterAscends<T(!new)>(list: seq<T>, keep: T -> bool, less: (T, T) -> bool)
    requires Strict(less) && Ascending(list, less)
    ensures Ascending(Filter(list, keep), less)
  {
    if list != [] {
      var front := list[..|list| - 1];
      FilterAscends(front, keep, less);
      FilterMembers(front, keep);
      var kept, last := Filter(front, keep), list[|list| - 1];
      assert forall x <- front :: less(x, last);
      assert forall i | 0 <= i < |kept| :: kept[i] in front;
      assert Ascending(kept + [last], less);
    }
  }

  lemma {:induction false} AscendingOnce<T(!new)>(list: seq<T>, x: T, less: (T, T) -> bool)
    requires Strict(less) && Ascending(list, less)
    ensures multiset(list)[x] == if x in list then 1 else 0
  {
    if list != [] {
      var front, last := list[..|list| - 1], list[|list| - 1];
      assert list == front + [last];
      AscendingOnce(front, x, less);
      assert last !in front;
    }
  }
}
