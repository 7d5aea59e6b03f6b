/** Reading the message list page by page while mail arrives, leaves and changes (message-queries.ts).
    What the view's filters select at the moment of a request is a set of rows. */
module MessagePages {
  import opened Keyset
  import opened MessageCursor
  import opened Optional
  import opened TextOrder

  /** A selected row; `content` is everything but its place in the list. */
  datatype Row = Row(sortKey: string, id: string, content: string)

  function PositionOf(r: Row): Position {
    Position(r.sortKey, r.id)
  }

  /** `ORDER BY sort_key DESC, id DESC`. */
  predicate Above(r: Row, s: Row) {
    Less(s.sortKey, r.sortKey) || (s.sortKey == r.sortKey && Less(s.id, r.id))
  }

  /** The cursor predicate. */
  predicate Below(r: Row, cursor: Option<Position>) {
    cursor.None? || Less(r.sortKey, cursor.value.sortKey) || (r.sortKey == cursor.value.sortKey
        && Less(r.id, cursor.value.id))
  }

  /** `id` is the primary key. */
  ghost predicate Keyed(rows: set<Row>) {
    forall r <- rows, s <- rows :: r != s ==> r.id != s.id
  }

  lemma ListOrderIsTotal(rows: set<Row>)
    requires Keyed(rows)
    ensures Strict(Above) && Total(rows, Above)
  {
    LessIsStrict();
    forall r <- rows, s <- rows | r != s ensures Above(r, s) || Above(s, r) {
      LessTotal(r.id, s.id);
      if r.sortKey != s.sortKey { LessTotal(r.sortKey, s.sortKey); }
    }
  }

  function RowsBelow(rows: set<Row>, cursor: Option<Position>): set<Row> {
    set r | r in rows && Below(r, cursor)
  }

  /** The whole view in list order. */
  function View(rows: set<Row>): (list: seq<Row>)
    requires Keyed(rows)
    ensures Lists(list, rows, Above)
  {
    ListOrderIsTotal(rows);
    OrderBy(rows, Above)
  }

  datatype ListPage = ListPage(rows: seq<Row>, next: Option<Position>)

  /** One row past the page is read to tell whether the list goes on. */
  function PageOf(rows: set<Row>, limit: nat, cursor: Option<Position>): ListPage
    requires Keyed(rows)
  {
    ListOrderIsTotal(rows);
    var probed := Page(RowsBelow(rows, cursor), Above, limit + 1);
    var hasMore := |probed| > limit;
    var page := if hasMore then probed[..limit] else probed;
    ListPage(page, if hasMore && page != [] then Some(PositionOf(page[|page| - 1])) else None)
  }

  lemma PageRows(rows: set<Row>, limit: nat, cursor: Option<Position>)
    requires Keyed(rows)
    ensures Strict(Above) && Total(RowsBelow(rows, cursor), Above)
    ensures var list := OrderBy(RowsBelow(rows, cursor), Above);
            PageOf(rows, limit, cursor)
            == if |list| <= limit then ListPage(list, None)
               else ListPage(list[..limit], if limit > 0 then Some(PositionOf(list[limit - 1])) else None)
  {
    hide Less, Strict, Total, Lists, Above;
    ListOrderIsTotal(rows);
    ListOrderIsTotal(RowsBelow(rows, cursor));
  }

  /** What a page should be: rows below the cursor in list order, a full page and a next cursor at its
      last row exactly when more lie below, and nothing left out between the two cursors. */
  ghost predicate Serves(p: ListPage, rows: set<Row>, limit: nat, cursor: Option<Position>) {
    && Ascending(p.rows, Above) && |p.rows| <= limit
    && (forall r <- p.rows :: r in rows && Below(r, cursor))
    && (p.next.Some? ==> p.rows != [] && p.next == Some(PositionOf(p.rows[|p.rows| - 1])))
    && (forall r <- rows :: Below(r, cursor) && r !in p.rows ==> p.next.Some? && Below(r, p.next))
    && (p.next.Some? ==> |p.rows| == limit && exists r <- rows :: Below(r, p.next))
  }

  lemma LastPageServes(list: seq<Row>, rows: set<Row>, limit: nat, cursor: Option<Position>)
    requires Lists(list, RowsBelow(rows, cursor), Above) && |list| <= limit
    ensures Serves(ListPage(list, None), rows, limit, cursor)
  {
    hide Above, Below;
  }

  lemma FullPageServes(list: seq<Row>, rows: set<Row>, limit: nat, cursor: Option<Position>)
    requires Lists(list, RowsBelow(rows, cursor), Above) && 0 < limit < |list|
    ensures Serves(ListPage(list[..limit], Some(PositionOf(list[limit - 1]))), rows, limit, cursor)
  {
    hide Less;
    var page, last := list[..limit], list[limit - 1];
    forall k | 0 <= k < limit ensures list[k] in page { assert page[k] == list[k]; }
    forall r <- rows | Below(r, cursor) && r !in page
      ensures Above(last, r)
    {
      assert r in RowsBelow(rows, cursor);
      var i :| 0 <= i < |list| && list[i] == r;
    }
    forall r <- page ensures r in list { }
    var more := list[limit];
    assert more in list && Above(last, more);
    assert more in rows && Below(more, Some(PositionOf(last)));
  }

  lemma PageHolds(rows: set<Row>, limit: nat, cursor: Option<Position>)
    requires Keyed(rows) && limit > 0
    ensures Serves(PageOf(rows, limit, cursor), rows, limit, cursor)
  {
    PageRows(rows, limit, cursor);
    var list := OrderBy(RowsBelow(rows, cursor), Above);
    if |list| <= limit {
      LastPageServes(list, rows, limit, cursor);
    } else {
      FullPageServes(list, rows, limit, cursor);
    }
  }

  // ----- Following the cursor while the view changes -----

  datatype Reading = Reading(rows: seq<Row>, ended: bool)

  /** The rows a client collects: one page from each successive state of the view, until the cursor is
      null or the client stops asking. */
  function Follow(views: seq<set<Row>>, limit: nat, cursor: Option<Position>): Reading
    requires forall v <- views :: Keyed(v)
  {
    if views == [] then Reading([], false)
    else
      var page := PageOf(views[0], limit, cursor);
      if page.next.None? then Reading(page.rows, true)
      else
        var rest := Follow(views[1..], limit, page.next);
        Reading(page.rows + rest.rows, rest.ended)
  }

  lemma {:induction false} FollowBelow(views: seq<set<Row>>, limit: nat, cursor: Option<Position>)
    requires (forall v <- views :: Keyed(v)) && limit > 0
    ensures var rows := Follow(views, limit, cursor).rows;
            && Ascending(rows, Above)
            && (forall r <- rows :: Below(r, cursor) && exists v <- views :: r in v)
    decreases |views|
  {
    if views != [] {
      var page := PageOf(views[0], limit, cursor);
      PageHolds(views[0], limit, cursor);
      if page.next.Some? {
        FollowBelow(views[1..], limit, page.next);
        var rest := Follow(views[1..], limit, page.next).rows;
        JoinAscends(page.rows, rest);
        forall r <- rest ensures Below(r, cursor) {
          BelowTransitive(r, page.rows[|page.rows| - 1], cursor);
        }
      }
    }
  }

  lemma BelowTransitive(r: Row, s: Row, cursor: Option<Position>)
    requires Below(s, cursor) && Below(r, Some(PositionOf(s)))
    ensures Below(r, cursor)
  {
    LessIsStrict();
  }

  lemma JoinAscends(page: seq<Row>, rest: seq<Row>)
    requires page != [] && Ascending(page, Above) && Ascending(rest, Above)
    requires forall r <- rest :: Below(r, Some(PositionOf(page[|page| - 1])))
    ensures Ascending(page + rest, Above)
  {
    LessIsStrict();
    var last := page[|page| - 1];
    forall r <- page, s <- rest ensures Above(r, s) {
      assert Above(last, s);
      var i :| 0 <= i < |page| && page[i] == r;
      assert r == last || Above(r, last);
    }
  }

  lemma {:induction false} FollowFinds(views: seq<set<Row>>, limit: nat, cursor: Option<Position>, r: Row)
    requires (forall v <- views :: Keyed(v)) && limit > 0 && Follow(views, limit, cursor).ended
    requires (forall v <- views :: r in v) && Below(r, cursor)
    ensures r in Follow(views, limit, cursor).rows
    decreases |views|
  {
    if views != [] {
      PageHolds(views[0], limit, cursor);
      var page := PageOf(views[0], limit, cursor);
      if r !in page.rows {
        FollowFinds(views[1..], limit, page.next, r);
      }
    }
  }

  /** However the view changes between pages: what the client collects is in list order, so nothing comes
      twice at the same place; every row comes from the view; and once the cursor is null, each row that
      was there unchanged throughout has been served. */
  lemma PagesOverAChangingView(views: seq<set<Row>>, limit: nat)
    requires (forall v <- views :: Keyed(v)) && limit > 0
    ensures var read := Follow(views, limit, None);
            && (forall i, j | 0 <= i < j < |read.rows| ::
                  Above(read.rows[i], read.rows[j]) && PositionOf(read.rows[i]) != PositionOf(read.rows[j]))
            && (forall r <- read.rows :: exists v <- views :: r in v)
            && (read.ended ==> forall r :: (forall v <- views :: r in v) ==> multiset(read.rows)[r] == 1)
  {
    var read := Follow(views, limit, None);
    FollowBelow(views, limit, None);
    LessIsStrict();
    if read.ended {
      forall r | forall v <- views :: r in v
        ensures multiset(read.rows)[r] == 1
      {
        FollowFinds(views, limit, None, r);
        AscendingOnce(read.rows, r, Above);
      }
    }
  }

  /** As long as no message changes its sort key, no message is served twice. */
  lemma NoMessageTwice(views: seq<set<Row>>, limit: nat)
    requires (forall v <- views :: Keyed(v)) && limit > 0
    requires forall v <- views, w <- views, r <- v, s <- w :: r.id == s.id ==> r.sortKey == s.sortKey
    ensures var rows := Follow(views, limit, None).rows;
            forall i, j | 0 <= i < j < |rows| :: rows[i].id != rows[j].id
  {
    PagesOverAChangingView(views, limit);
    var rows := Follow(views, limit, None).rows;
    forall i, j | 0 <= i < j < |rows|
      ensures rows[i].id != rows[j].id
    {
      assert rows[i] in rows && rows[j] in rows;
    }
  }

  // ----- A view that stays still -----

  function Still(view: set<Row>, requests: nat): seq<set<Row>> {
    seq(requests, i => view)
  }

  /** Enough requests reach the null cursor. */
  lemma {:induction false} EnoughRequestsEnd(view: set<Row>, limit: nat, cursor: Option<Position>, requests: nat)
    requires Keyed(view) && limit > 0 && |RowsBelow(view, cursor)| <= limit * requests && requests > 0
    ensures Follow(Still(view, requests), limit, cursor).ended
    decreases requests
  {
    hide Keyed, Less, PageOf, RowsBelow;
    assert Still(view, requests)[0] == view;
    assert Still(view, requests)[1..] == Still(view, requests - 1);
    if PageOf(view, limit, cursor).next.Some? {
      RowsLeft(view, limit, cursor);
      assert limit * requests == limit * (requests - 1) + limit;
      if requests == 1 {
        assert false;
      }
      EnoughRequestsEnd(view, limit, PageOf(view, limit, cursor).next, requests - 1);
    }
  }

  /** A page that does not end the list leaves its rows behind it. */
  lemma RowsLeft(view: set<Row>, limit: nat, cursor: Option<Position>)
    requires Keyed(view) && limit > 0
    ensures var next := PageOf(view, limit, cursor).next;
            next.Some? ==> 0 < |RowsBelow(view, next)| <= |RowsBelow(view, cursor)| - limit
  {
    if PageOf(view, limit, cursor).next.None? {
      return;
    }
    PageHolds(view, limit, cursor);
    ListOrderIsTotal(view);
    hide Keyed, Less, PageOf, Total;
    var page := PageOf(view, limit, cursor);
    var served := set r | r in page.rows;
    var before, after := RowsBelow(view, cursor), RowsBelow(view, page.next);
    AscendingCount(page.rows, served, Above);
    var last := page.rows[|page.rows| - 1];
    forall r <- after ensures r in before { BelowTransitive(r, last, cursor); }
    forall r <- after ensures r !in served { NotServed(page.rows, r); }
    assert served <= before && served !! after;
    SubsetSize(served + after, before);
    var r :| r in view && Below(r, page.next);
    assert r in after;
  }

  lemma NotServed(page: seq<Row>, r: Row)
    requires page != [] && Ascending(page, Above) && Strict(Above) && Below(r, Some(PositionOf(page[|page| - 1])))
    ensures r !in page
  {
    var last := page[|page| - 1];
    assert Above(last, r);
    if r in page {
      var i :| 0 <= i < |page| && page[i] == r;
    }
  }

  lemma {:induction false} SubsetSize<T>(a: set<T>, b: set<T>)
    requires a <= b
    ensures |a| <= |b|
  {
    if a != {} {
      var x :| x in a;
      SubsetSize(a - {x}, b - {x});
    }
  }

  /** Following the cursor to null over an unchanging view gives the whole view, in list order. */
  lemma PagesAreTheView(view: set<Row>, limit: nat, requests: nat)
    requires Keyed(view) && limit > 0 && |view| <= limit * requests && requests > 0
    ensures Follow(Still(view, requests), limit, None) == Reading(View(view), true)
  {
    var views := Still(view, requests);
    var read := Follow(views, limit, None);
    assert RowsBelow(view, None) == view;
    EnoughRequestsEnd(view, limit, None, requests);
    FollowBelow(views, limit, None);
    ListOrderIsTotal(view);
    assert views[0] == view;
    forall r <- view ensures r in read.rows {
      FollowFinds(views, limit, None, r);
    }
    AscendingCount(read.rows, view, Above);
    ListsUnique(read.rows, View(view), view, Above);
  }

  // ----- The cursor as the client holds it -----

  /** The same reading through the opaque text: a text that does not decode is answered with an error. */
  function FollowText(views: seq<set<Row>>, limit: nat, text: Option<string>): Reading
    requires forall v <- views :: Keyed(v)
  {
    if views == [] then Reading([], false)
    else if text.Some? && Decode(text.value).Invalid? then Reading([], false)
    else
      var page := PageOf(views[0], limit, if text.None? then None else Some(Decode(text.value).position));
      if page.next.None? then Reading(page.rows, true)
      else
        var rest := FollowText(views[1..], limit, Some(Encode(page.next.value)));
        Reading(page.rows + rest.rows, rest.ended)
  }

  /** Handing positions out as text changes nothing, as long as every row's position can be carried. */
  lemma {:induction false} TextChangesNothing(views: seq<set<Row>>, limit: nat, cursor: Option<Position>)
    requires (forall v <- views :: Keyed(v)) && limit > 0
    requires forall v <- views, r <- v :: Carries(PositionOf(r))
    requires cursor.Some? ==> Carries(cursor.value)
    ensures FollowText(views, limit, if cursor.None? then None else Some(Encode(cursor.value)))
            == Follow(views, limit, cursor)
    decreases |views|
  {
    hide Keyed, Decode, Encode, PageOf, Carries;
    if cursor.Some? {
      RoundTrip(cursor.value);
    }
    if views != [] {
      PageHolds(views[0], limit, cursor);
      var page := PageOf(views[0], limit, cursor);
      if page.next.Some? {
        var last := page.rows[|page.rows| - 1];
        assert last in page.rows;
        assert last in views[0] && Carries(PositionOf(last));
        TextChangesNothing(views[1..], limit, page.next);
      }
    }
  }
}
