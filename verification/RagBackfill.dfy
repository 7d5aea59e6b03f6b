/** The budgeted multi-account backfill of source events (agent-rag-worker.ts).

    `Pass` is the specification of one pass; class `BackfillWorker` is the code, proved equal to it.
    Message tables do not change while passes run, a pass sees one lease per active account, and the
    locator digest is taken as injective, so an event is identified by account, generation and
    message. */
module RagBackfill {
  import opened Sequences

  type AccountId = string
  type MessageId = string

  const MAX_SCAN: nat := 100

  datatype Row = Row(rowId: nat, id: MessageId)
  datatype Cursor = Cursor(generation: nat, lastRowId: nat, exhausted: bool)
  datatype Event = Event(account: AccountId, generation: nat, message: MessageId)

  /** The tables one pass reads: accounts in order, their rows by rowid, their current leases. */
  datatype Mail = Mail(accounts: seq<AccountId>, rows: map<AccountId, seq<Row>>, leases: map<AccountId, nat>)

  datatype State = State(cursors: map<AccountId, Cursor>, events: seq<Event>, remaining: nat)

  function Max(a: int, b: int): int {
    if a > b then a else b
  }

  function Min(a: int, b: int): int {
    if a < b then a else b
  }

  function Target(limit: int): (t: nat)
    ensures 1 <= t <= MAX_SCAN
  {
    Max(1, Min(limit, MAX_SCAN))
  }

  function RowsOf(m: Mail, a: AccountId): seq<Row> {
    if a in m.rows then m.rows[a] else []
  }

  /** Rowids ascend, start at 1, and no message id is stored twice. */
  ghost predicate WellFormed(m: Mail) {
    forall a <- m.rows ::
      && (forall i | 0 <= i < |m.rows[a]| :: m.rows[a][i].rowId > 0)
      && (forall i, j | 0 <= i < j < |m.rows[a]| ::
            m.rows[a][i].rowId < m.rows[a][j].rowId && m.rows[a][i].id != m.rows[a][j].id)
  }

  /** `rowid > last ORDER BY rowid`. */
  function RowsAfter(rows: seq<Row>, last: nat): seq<Row> {
    if rows == [] then []
    else if rows[0].rowId > last then rows
    else RowsAfter(rows[1..], last)
  }

  function Take(rows: seq<Row>, limit: nat): seq<Row> {
    if |rows| <= limit then rows else rows[..limit]
  }

  function CursorOf(cursors: map<AccountId, Cursor>, a: AccountId, generation: nat): Cursor {
    if a in cursors && cursors[a].generation == generation then cursors[a] else Cursor(generation, 0, false)
  }

  function Batch(m: Mail, s: State, a: AccountId, target: nat): seq<Row>
    requires a in m.leases
  {
    Take(RowsAfter(RowsOf(m, a), CursorOf(s.cursors, a, m.leases[a]).lastRowId), Max(s.remaining * 4, target))
  }

  /** The locators already in the outbox, as `hasSourceEventLocators` answers for a batch. */
  function Existing(events: seq<Event>, a: AccountId, generation: nat, batch: seq<Row>): set<MessageId> {
    set row <- batch | Event(a, generation, row.id) in events :: row.id
  }

  datatype Scanned = Scanned(events: seq<Event>, remaining: nat, lastRowId: nat)

  /** The row loop over one batch: it stops as soon as the budget is spent. */
  function Scan(a: AccountId, generation: nat, batch: seq<Row>, existing: set<MessageId>, s: Scanned): Scanned
    requires s.remaining > 0
    decreases |batch|
  {
    if batch == [] then s
    else
      var seen := s.(lastRowId := batch[0].rowId);
      if batch[0].id in existing then Scan(a, generation, batch[1..], existing, seen)
      else
        var queued := seen.(events := seen.events + [Event(a, generation, batch[0].id)],
            remaining := seen.remaining - 1);
        if queued.remaining == 0 then queued else Scan(a, generation, batch[1..], existing, queued)
  }

  function Visit(m: Mail, s: State, a: AccountId, target: nat): State
    requires s.remaining > 0
  {
    if a !in m.leases then s.(cursors := s.cursors - {a})
    else
      var cursor := CursorOf(s.cursors, a, m.leases[a]);
      if cursor.exhausted then s
      else
        var batch := Batch(m, s, a, target);
        if batch == [] then s.(cursors := s.cursors[a := cursor.(exhausted := true)])
        else
          var existing := Existing(s.events, a, m.leases[a], batch);
          var r := Scan(a, m.leases[a], batch, existing, Scanned(s.events, s.remaining, cursor.lastRowId));
          State(s.cursors[a := Cursor(m.leases[a], r.lastRowId, |batch| < Max(r.remaining * 4, target))],
                r.events, r.remaining)
  }

  function VisitAll(m: Mail, s: State, accounts: seq<AccountId>, target: nat): State
    decreases |accounts|
  {
    if accounts == [] || s.remaining == 0 then s
    else VisitAll(m, Visit(m, s, accounts[0], target), accounts[1..], target)
  }

  /** One call of `queueInitialBackfill`. */
  function Pass(m: Mail, s: State, limit: int): State {
    VisitAll(m, s.(remaining := Target(limit)), m.accounts, Target(limit))
  }

  // ----- The code -----

  class BackfillWorker {
    var cursors: map<AccountId, Cursor>
    var events: seq<Event>

    constructor ()
      ensures cursors == map[] && events == []
    {
      cursors, events := map[], [];
    }

    method QueueInitialBackfill(m: Mail, limit: int)
      modifies this
      ensures cursors == Pass(m, State(old(cursors), old(events), 0), limit).cursors
      ensures events == Pass(m, State(old(cursors), old(events), 0), limit).events
    {
      var target := Target(limit);
      var remaining := target;
      var i := 0;
      ghost var result := Pass(m, State(cursors, events, 0), limit);
      while i < |m.accounts| && remaining > 0
        invariant 0 <= i <= |m.accounts|
        invariant VisitAll(m, State(cursors, events, remaining), m.accounts[i..], target) == result
      {
        var a := m.accounts[i];
        assert m.accounts[i..][1..] == m.accounts[i + 1..];
        remaining := VisitAccount(m, a, target, remaining);
        i := i + 1;
      }
    }

    method VisitAccount(m: Mail, a: AccountId, target: nat, budget: nat) returns (remaining: nat)
      requires budget > 0
      modifies this
      ensures State(cursors, events, remaining) == Visit(m, State(old(cursors), old(events), budget), a, target)
    {
      remaining := budget;
      if a !in m.leases {
        cursors := cursors - {a};
        return;
      }
      var generation := m.leases[a];
      var cursor := CursorOf(cursors, a, generation);
      if cursor.exhausted {
        return;
      }
      var batch := Take(RowsAfter(RowsOf(m, a), cursor.lastRowId), Max(remaining * 4, target));
      if batch == [] {
        cursors := cursors[a := cursor.(exhausted := true)];
        return;
      }
      var existing := Existing(events, a, generation, batch);
      var k := 0;
      ghost var result := Scan(a, generation, batch, existing, Scanned(events, remaining, cursor.lastRowId));
      while k < |batch| && remaining > 0
        invariant 0 <= k <= |batch|
        invariant remaining > 0 ==>
          Scan(a, generation, batch[k..], existing, Scanned(events, remaining, cursor.lastRowId)) == result
        invariant remaining == 0 ==> result == Scanned(events, remaining, cursor.lastRowId)
        invariant cursors == old(cursors) && cursor.generation == generation
      {
        var row := batch[k];
        assert batch[k..][1..] == batch[k + 1..];
        cursor := cursor.(lastRowId := row.rowId);
        if row.id !in existing {
          events := events + [Event(a, generation, row.id)];
          remaining := remaining - 1;
        }
        k := k + 1;
      }
      cursors := cursors[a := cursor.(exhausted := |batch| < Max(remaining * 4, target))];
    }
  }

  // ----- What a scan enqueues -----

  ghost predicate Sourced(events: seq<Event>, a: AccountId, generation: nat, row: Row) {
    Event(a, generation, row.id) in events
  }

  /** Every message at or below a cursor has its event. */
  ghost predicate Covered(m: Mail, cursors: map<AccountId, Cursor>, events: seq<Event>) {
    forall a <- cursors, row <- RowsOf(m, a) | row.rowId <= cursors[a].lastRowId ::
      Sourced(events, a, cursors[a].generation, row)
  }

  /** The events a batch still lacks, in row order. */
  function Missing(a: AccountId, generation: nat, batch: seq<Row>, existing: set<MessageId>): seq<Event> {
    if batch == [] then []
    else
      (if batch[0].id in existing then [] else [Event(a, generation, batch[0].id)])
      + Missing(a, generation, batch[1..], existing)
  }

  lemma {:induction false} RowsAfterSplits(rows: seq<Row>, last: nat)
    requires forall i, j | 0 <= i < j < |rows| :: rows[i].rowId < rows[j].rowId
    ensures var k := |rows| - |RowsAfter(rows, last)|;
            && 0 <= k && RowsAfter(rows, last) == rows[k..]
            && (forall i | 0 <= i < k :: rows[i].rowId <= last)
            && (forall i | k <= i < |rows| :: rows[i].rowId > last)
  {
    if rows != [] && rows[0].rowId <= last {
      RowsAfterSplits(rows[1..], last);
      var k := |rows| - |RowsAfter(rows, last)|;
      assert rows[1..][k - 1..] == rows[k..];
      forall i | 0 <= i < k
        ensures rows[i].rowId <= last
      {
        if i > 0 { assert rows[i] == rows[1..][i - 1]; }
      }
      forall i | k <= i < |rows|
        ensures rows[i].rowId > last
      {
        assert rows[i] == rows[1..][i - 1];
      }
    }
  }

  ghost predicate RowsAscend(batch: seq<Row>) {
    forall i, j | 0 <= i < j < |batch| :: batch[i].rowId < batch[j].rowId && batch[i].id != batch[j].id
  }

  lemma {:induction false} MissingIs(a: AccountId, generation: nat, batch: seq<Row>, existing: set<MessageId>)
    ensures forall e :: e in Missing(a, generation, batch, existing) <==>
              exists row <- batch :: row.id !in existing && e == Event(a, generation, row.id)
  {
    if batch != [] {
      MissingIs(a, generation, batch[1..], existing);
      assert forall row <- batch :: row == batch[0] || row in batch[1..];
    }
  }

  lemma {:induction false} MissingOnce(a: AccountId, generation: nat, batch: seq<Row>, existing: set<MessageId>)
    requires RowsAscend(batch)
    ensures NoneTwice(Missing(a, generation, batch, existing))
  {
    if batch != [] {
      MissingOnce(a, generation, batch[1..], existing);
      MissingIs(a, generation, batch[1..], existing);
      forall e <- Missing(a, generation, batch[1..], existing)
        ensures e.message != batch[0].id
      {
        var row :| row in batch[1..] && e == Event(a, generation, row.id);
        var j :| 0 <= j < |batch[1..]| && batch[1..][j] == row;
        assert batch[j + 1].id != batch[0].id;
      }
    }
  }

  lemma {:induction false} MissingSplits(a: AccountId, generation: nat, batch: seq<Row>, existing: set<MessageId>,
      k: nat)
    requires k <= |batch|
    ensures Missing(a, generation, batch, existing) ==
            Missing(a, generation, batch[..k], existing) + Missing(a, generation, batch[k..], existing)
  {
    if k > 0 {
      MissingSplits(a, generation, batch[1..], existing, k - 1);
      assert batch[..k][1..] == batch[1..][..k - 1] && batch[1..][k - 1..] == batch[k..];
    } else {
      assert batch[..k] == [] && batch[k..] == batch;
    }
  }

  /** A scan handles the first `k` rows of its batch: it enqueues exactly what they lack, and it only
      stops short of the end because the budget is spent. */
  lemma {:induction false} ScanStops(a: AccountId, generation: nat, batch: seq<Row>, existing: set<MessageId>,
      s: Scanned) returns (k: nat)
    requires s.remaining > 0
    ensures k <= |batch| && (k == 0 ==> batch == [])
    ensures var r := Scan(a, generation, batch, existing, s);
            var queued := Missing(a, generation, batch[..k], existing);
            && |queued| <= s.remaining
            && r == Scanned(s.events + queued, s.remaining - |queued|,
                            if k == 0 then s.lastRowId else batch[k - 1].rowId)
            && (k < |batch| ==> r.remaining == 0)
    decreases |batch|
  {
    if batch == [] {
      k := 0;
    } else {
      var rest := batch[1..];
      var seen := s.(lastRowId := batch[0].rowId);
      var queued := seen.(events := seen.events + [Event(a, generation, batch[0].id)], remaining := seen.remaining - 1);
      if batch[0].id in existing {
        k := ScanStops(a, generation, rest, existing, seen);
        assert batch[..k + 1][1..] == rest[..k];
        k := k + 1;
      } else if queued.remaining > 0 {
        k := ScanStops(a, generation, rest, existing, queued);
        assert batch[..k + 1][1..] == rest[..k];
        k := k + 1;
      } else {
        k := 1;
        assert batch[..1][1..] == [];
      }
    }
  }

  // ----- What every pass keeps -----

  /** One visit: the events only grow, each growth is paid from the budget, no event is repeated, and
      everything at or below a cursor stays covered. */
  lemma VisitKeeps(m: Mail, s: State, a: AccountId, target: nat)
    requires WellFormed(m) && s.remaining > 0
    requires Covered(m, s.cursors, s.events) && NoneTwice(s.events)
    ensures var t := Visit(m, s, a, target);
            && Covered(m, t.cursors, t.events) && NoneTwice(t.events)
            && s.events <= t.events && |t.events| - |s.events| == s.remaining - t.remaining
            && (forall e <- t.events[|s.events|..] :: e.account == a && a in m.leases && e.generation == m.leases[a])
            && (forall b | b != a ::
                  (b in t.cursors <==> b in s.cursors) && (b in s.cursors ==> t.cursors[b] == s.cursors[b]))
  {
    if Scans(m, s, a, target) {
      var k := VisitScans(m, s, a, target);
      QueuedIsFresh(m, s, a, target, k);
      HandledIsSourced(m, s, a, target, k);
      var t := Visit(m, s, a, target);
      forall b <- t.cursors, row <- RowsOf(m, b) | row.rowId <= t.cursors[b].lastRowId
        ensures Sourced(t.events, b, t.cursors[b].generation, row)
      {
        if b != a {
          assert Sourced(s.events, b, s.cursors[b].generation, row);
        }
      }
    }
  }

  /** A visit with something to scan: the account is leased, not exhausted, and has rows left. */
  predicate Scans(m: Mail, s: State, a: AccountId, target: nat) {
    a in m.leases && !CursorOf(s.cursors, a, m.leases[a]).exhausted && Batch(m, s, a, target) != []
  }

  function BatchMissing(m: Mail, s: State, a: AccountId, target: nat, k: nat): seq<Event>
    requires a in m.leases && k <= |Batch(m, s, a, target)|
  {
    var batch := Batch(m, s, a, target);
    Missing(a, m.leases[a], batch[..k], Existing(s.events, a, m.leases[a], batch))
  }

  /** What such a visit does: it handles the first `k` rows of its batch. */
  lemma VisitScans(m: Mail, s: State, a: AccountId, target: nat) returns (k: nat)
    requires s.remaining > 0 && Scans(m, s, a, target)
    ensures var t, batch := Visit(m, s, a, target), Batch(m, s, a, target);
            && 0 < k <= |batch| && |BatchMissing(m, s, a, target, k)| <= s.remaining
            && t.cursors == s.cursors[a := Cursor(m.leases[a], batch[k - 1].rowId,
                                                  |batch| < Max(t.remaining * 4, target))]
            && t.events == s.events + BatchMissing(m, s, a, target, k)
            && t.remaining == s.remaining - |BatchMissing(m, s, a, target, k)|
            && (k < |batch| ==> t.remaining == 0)
  {
    var g, batch := m.leases[a], Batch(m, s, a, target);
    var cursor := CursorOf(s.cursors, a, g);
    k := ScanStops(a, g, batch, Existing(s.events, a, g, batch), Scanned(s.events, s.remaining, cursor.lastRowId));
  }

  /** A limited read behind a cursor is the stretch of rows that follows those up to the cursor. */
  lemma SliceAfter(rows: seq<Row>, last: nat, limit: nat) returns (first: nat)
    requires RowsAscend(rows)
    ensures var batch := Take(RowsAfter(rows, last), limit);
            && first + |batch| <= |rows| && batch == rows[first..first + |batch|] && RowsAscend(batch)
            && (forall i | 0 <= i < first :: rows[i].rowId <= last)
            && (|batch| < limit ==> first + |batch| == |rows|)
  {
    RowsAfterSplits(rows, last);
    first := |rows| - |RowsAfter(rows, last)|;
    hide RowsAfter;
  }

  lemma AccountRowsAscend(m: Mail, a: AccountId)
    requires WellFormed(m)
    ensures RowsAscend(RowsOf(m, a))
  {
  }

  lemma BatchIsSlice(m: Mail, s: State, a: AccountId, target: nat) returns (first: nat)
    requires WellFormed(m) && a in m.leases
    ensures var rows, batch := RowsOf(m, a), Batch(m, s, a, target);
            var last := CursorOf(s.cursors, a, m.leases[a]).lastRowId;
            && first + |batch| <= |rows| && batch == rows[first..first + |batch|] && RowsAscend(batch)
            && (forall i | 0 <= i < first :: rows[i].rowId <= last)
            && (|batch| < Max(s.remaining * 4, target) ==> first + |batch| == |rows|)
  {
    AccountRowsAscend(m, a);
    var last, limit := CursorOf(s.cursors, a, m.leases[a]).lastRowId, Max(s.remaining * 4, target);
    assert Batch(m, s, a, target) == Take(RowsAfter(RowsOf(m, a), last), limit);
    hide *;
    first := SliceAfter(RowsOf(m, a), last, limit);
  }

  lemma NoneTwiceConcat(x: seq<Event>, y: seq<Event>)
    requires NoneTwice(x) && NoneTwice(y) && forall e <- y :: e !in x
    ensures NoneTwice(x + y)
  {
    forall i, j | 0 <= i < j < |x + y|
      ensures (x + y)[i] != (x + y)[j]
    {
      if i < |x| <= j {
        assert (x + y)[i] in x && (x + y)[j] in y;
      }
    }
  }

  /** The events a visit enqueues are new and pairwise distinct. */
  lemma QueuedIsFresh(m: Mail, s: State, a: AccountId, target: nat, k: nat)
    requires WellFormed(m) && Scans(m, s, a, target) && k <= |Batch(m, s, a, target)| && NoneTwice(s.events)
    ensures NoneTwice(s.events + BatchMissing(m, s, a, target, k))
    ensures forall e <- BatchMissing(m, s, a, target, k) :: e.account == a && e.generation == m.leases[a]
  {
    var first := BatchIsSlice(m, s, a, target);
    var g, batch := m.leases[a], Batch(m, s, a, target);
    MissingIs(a, g, batch[..k], Existing(s.events, a, g, batch));
    MissingOnce(a, g, batch[..k], Existing(s.events, a, g, batch));
    forall e <- BatchMissing(m, s, a, target, k)
      ensures e !in s.events
    {
      var row :| row in batch[..k] && row.id !in Existing(s.events, a, g, batch) && e == Event(a, g, row.id);
      assert row in batch;
    }
    NoneTwiceConcat(s.events, BatchMissing(m, s, a, target, k));
  }

  /** Every row up to the `k`-th of the batch has its event afterwards. */
  lemma BehindTheCursor(m: Mail, s: State, a: AccountId, row: Row)
    requires WellFormed(m) && Covered(m, s.cursors, s.events) && a in m.leases && row in RowsOf(m, a)
    requires row.rowId <= CursorOf(s.cursors, a, m.leases[a]).lastRowId
    ensures Sourced(s.events, a, m.leases[a], row)
  {
  }

  lemma InTheBatch(m: Mail, s: State, a: AccountId, target: nat, k: nat, row: Row)
    requires a in m.leases && k <= |Batch(m, s, a, target)| && row in Batch(m, s, a, target)[..k]
    ensures Sourced(s.events + BatchMissing(m, s, a, target, k), a, m.leases[a], row)
  {
    var g, batch := m.leases[a], Batch(m, s, a, target);
    MissingIs(a, g, batch[..k], Existing(s.events, a, g, batch));
  }

  lemma HandledIsSourced(m: Mail, s: State, a: AccountId, target: nat, k: nat)
    requires WellFormed(m) && Covered(m, s.cursors, s.events)
    requires Scans(m, s, a, target) && 0 < k <= |Batch(m, s, a, target)|
    ensures forall row <- RowsOf(m, a) | row.rowId <= Batch(m, s, a, target)[k - 1].rowId ::
              Sourced(s.events + BatchMissing(m, s, a, target, k), a, m.leases[a], row)
  {
    var first := BatchIsSlice(m, s, a, target);
    var rows, batch := RowsOf(m, a), Batch(m, s, a, target);
    forall row <- rows | row.rowId <= batch[k - 1].rowId
      ensures Sourced(s.events + BatchMissing(m, s, a, target, k), a, m.leases[a], row)
    {
      hide BatchMissing, Batch, Existing;
      var i :| 0 <= i < |rows| && rows[i] == row;
      if i < first {
        BehindTheCursor(m, s, a, row);
      } else {
        assert rows[first + k - 1] == batch[k - 1];
        assert row == batch[i - first] == batch[..k][i - first];
        InTheBatch(m, s, a, target, k, row);
      }
    }
  }

  lemma {:induction false} VisitAllKeeps(m: Mail, s: State, accounts: seq<AccountId>, target: nat)
    requires WellFormed(m) && Covered(m, s.cursors, s.events) && NoneTwice(s.events)
    ensures var t := VisitAll(m, s, accounts, target);
            && Covered(m, t.cursors, t.events) && NoneTwice(t.events)
            && s.events <= t.events && |t.events| - |s.events| == s.remaining - t.remaining
    decreases |accounts|
  {
    if accounts != [] && s.remaining > 0 {
      VisitKeeps(m, s, accounts[0], target);
      VisitAllKeeps(m, Visit(m, s, accounts[0], target), accounts[1..], target);
    }
  }

  /** One call of the backfill with its limit and the leases of that moment. */
  datatype Tick = Tick(limit: int, leases: map<AccountId, nat>)

  function Step(m: Mail, s: State, tick: Tick): State {
    Pass(m.(leases := tick.leases), s, tick.limit)
  }

  function Run(m: Mail, s: State, ticks: seq<Tick>): State
    decreases |ticks|
  {
    if ticks == [] then s else Run(m, Step(m, s, ticks[0]), ticks[1..])
  }

  /** Over any number of passes, with leases coming, going and advancing between them: every message
      at or below a cursor has its event, no event is enqueued twice, none is ever withdrawn, and the
      last pass enqueued at most its budget. */
  lemma {:induction false} BackfillRuns(m: Mail, s: State, ticks: seq<Tick>)
    requires WellFormed(m) && Covered(m, s.cursors, s.events) && NoneTwice(s.events)
    ensures var t := Run(m, s, ticks);
            && Covered(m, t.cursors, t.events) && NoneTwice(t.events) && s.events <= t.events
            && (|ticks| == 1 ==> |t.events| - |s.events| <= Target(ticks[0].limit))
    decreases |ticks|
  {
    if ticks != [] {
      var now := m.(leases := ticks[0].leases);
      VisitAllKeeps(now, s.(remaining := Target(ticks[0].limit)), m.accounts, Target(ticks[0].limit));
      BackfillRuns(m, Step(m, s, ticks[0]), ticks[1..]);
    }
  }

  // ----- What `exhausted` is worth -----

  ghost predicate AllSourced(m: Mail, a: AccountId, generation: nat, events: seq<Event>) {
    forall row <- RowsOf(m, a) :: Sourced(events, a, generation, row)
  }

  /** More rows of the batch lack an event than the budget still allows, and the batch is shorter than
      a full pass's target. */
  predicate CutShort(m: Mail, s: State, a: AccountId, target: nat)
    requires a in m.leases
  {
    |BatchMissing(m, s, a, target, |Batch(m, s, a, target)|)| > s.remaining && |Batch(m, s, a, target)| < target
  }

  /** The rows after the `k`-th decide whether a batch is covered by what its first `k` rows lacked. */
  lemma LeftoverIsMissed(a: AccountId, g: nat, batch: seq<Row>, events: seq<Event>, k: nat) returns (row: Row)
    requires RowsAscend(batch) && k <= |batch| && Missing(a, g, batch[k..], Existing(events, a, g, batch)) != []
    ensures row in batch
    ensures !Sourced(events + Missing(a, g, batch[..k], Existing(events, a, g, batch)), a, g, row)
  {
    var existing := Existing(events, a, g, batch);
    var left := Missing(a, g, batch[k..], existing);
    MissingIs(a, g, batch[..k], existing);
    MissingIs(a, g, batch[k..], existing);
    hide Missing;
    assert left[0] in left;
    row :| row in batch[k..] && row.id !in existing && left[0] == Event(a, g, row.id);
    var i :| 0 <= i < |batch[k..]| && batch[k..][i] == row;
    assert batch[k + i] == row && row in batch;
    assert Event(a, g, row.id) !in events;
  }

  lemma LeftoverDecides(a: AccountId, g: nat, batch: seq<Row>, events: seq<Event>, k: nat)
    requires RowsAscend(batch) && k <= |batch|
    ensures var existing := Existing(events, a, g, batch);
            Missing(a, g, batch[k..], existing) == []
            <==> forall row <- batch :: Sourced(events + Missing(a, g, batch[..k], existing), a, g, row)
  {
    var existing := Existing(events, a, g, batch);
    var queued, left := Missing(a, g, batch[..k], existing), Missing(a, g, batch[k..], existing);
    if left == [] {
      MissingIs(a, g, batch[..k], existing);
      MissingIs(a, g, batch[k..], existing);
      hide Missing;
      forall i | 0 <= i < |batch|
        ensures Sourced(events + queued, a, g, batch[i])
      {
        assert i < k ==> batch[..k][i] == batch[i];
        assert i >= k ==> batch[k..][i - k] == batch[i];
        if batch[i].id !in existing {
          assert Event(a, g, batch[i].id) in queued + left;
        }
      }
    } else {
      var row := LeftoverIsMissed(a, g, batch, events, k);
    }
  }

  /** A visit covers its batch exactly when the budget allowed it. */
  lemma VisitCoversBatch(m: Mail, s: State, a: AccountId, target: nat)
    requires WellFormed(m) && s.remaining > 0 && Scans(m, s, a, target)
    ensures var t, batch := Visit(m, s, a, target), Batch(m, s, a, target);
            var fits := |BatchMissing(m, s, a, target, |batch|)| <= s.remaining;
            && (fits <==> forall row <- batch :: Sourced(t.events, a, m.leases[a], row))
            && (!fits ==> t.remaining == 0) && t.remaining <= s.remaining
            && a in t.cursors && (t.cursors[a].exhausted <==> |batch| < Max(t.remaining * 4, target))
  {
    var first := BatchIsSlice(m, s, a, target);
    var g, batch := m.leases[a], Batch(m, s, a, target);
    var k := VisitScans(m, s, a, target);
    LeftoverDecides(a, g, batch, s.events, k);
    MissingSplits(a, g, batch, Existing(s.events, a, g, batch), k);
    assert batch[..|batch|] == batch;
  }

  lemma CoveredBeforeAndInBatch(m: Mail, s: State, a: AccountId, target: nat, events: seq<Event>, row: Row)
    requires WellFormed(m) && Covered(m, s.cursors, s.events) && s.events <= events && a in m.leases
            && row in RowsOf(m, a)
    requires |Batch(m, s, a, target)| < Max(s.remaining * 4, target)
    requires forall x <- Batch(m, s, a, target) :: Sourced(events, a, m.leases[a], x)
    ensures Sourced(events, a, m.leases[a], row)
  {
    var first := BatchIsSlice(m, s, a, target);
    var i :| 0 <= i < |RowsOf(m, a)| && RowsOf(m, a)[i] == row;
    if i < first {
      assert Sourced(s.events, a, m.leases[a], row);
    } else {
      assert Batch(m, s, a, target)[i - first] == row;
    }
  }

  /** A batch with more missing than the budget leaves a message without its event. */
  lemma TooMuchMissing(m: Mail, s: State, a: AccountId, target: nat)
    requires WellFormed(m) && s.remaining > 0 && Scans(m, s, a, target)
    requires |BatchMissing(m, s, a, target, |Batch(m, s, a, target)|)| > s.remaining
    ensures !AllSourced(m, a, m.leases[a], Visit(m, s, a, target).events)
  {
    VisitCoversBatch(m, s, a, target);
    var first := BatchIsSlice(m, s, a, target);
    hide Visit, Batch, BatchMissing, WellFormed, Scans;
    var row :| row in Batch(m, s, a, target) && !Sourced(Visit(m, s, a, target).events, a, m.leases[a], row);
    assert row in RowsOf(m, a);
  }

  /** A batch that fits the budget and is shorter than it could be was the last one. */
  lemma LastBatchCovers(m: Mail, s: State, a: AccountId, target: nat)
    requires WellFormed(m) && Covered(m, s.cursors, s.events) && NoneTwice(s.events) && s.remaining > 0
    requires a in m.leases && !CursorOf(s.cursors, a, m.leases[a]).exhausted
    requires |BatchMissing(m, s, a, target, |Batch(m, s, a, target)|)| <= s.remaining
    requires var t := Visit(m, s, a, target); a in t.cursors && t.cursors[a].exhausted
    ensures AllSourced(m, a, m.leases[a], Visit(m, s, a, target).events)
  {
    if Scans(m, s, a, target) {
      VisitCoversBatch(m, s, a, target);
    }
    VisitKeeps(m, s, a, target);
    var t := Visit(m, s, a, target);
    assert |Batch(m, s, a, target)| < Max(s.remaining * 4, target);
    hide Visit, Batch, BatchMissing, WellFormed, Covered, NoneTwice;
    forall row <- RowsOf(m, a)
      ensures Sourced(t.events, a, m.leases[a], row)
    {
      CoveredBeforeAndInBatch(m, s, a, target, t.events, row);
    }
  }

  /** Nothing to scan is nothing missing. */
  lemma NothingToScan(m: Mail, s: State, a: AccountId, target: nat)
    requires s.remaining > 0 && a in m.leases && !CursorOf(s.cursors, a, m.leases[a]).exhausted
    ensures a in Visit(m, s, a, target).cursors
    ensures Batch(m, s, a, target) == [] ==> BatchMissing(m, s, a, target, 0) == []
  {
  }

  /** A visit marks an account exhausted while some message still has no event exactly when it was cut
      short: the comparison uses the budget as it stands after the row loop has spent it. */
  lemma ExhaustedWronglyExactlyWhenCutShort(m: Mail, s: State, a: AccountId, target: nat)
    requires WellFormed(m) && Covered(m, s.cursors, s.events) && NoneTwice(s.events)
    requires s.remaining > 0 && a in m.leases && !CursorOf(s.cursors, a, m.leases[a]).exhausted
    ensures var t := Visit(m, s, a, target);
            && a in t.cursors
            && (t.cursors[a].exhausted && !AllSourced(m, a, m.leases[a], t.events) <==> CutShort(m, s, a, target))
  {
    hide Visit, Batch, BatchMissing, WellFormed, Covered, NoneTwice, AllSourced;
    NothingToScan(m, s, a, target);
    if Scans(m, s, a, target) {
      VisitCoversBatch(m, s, a, target);
    }
    if |BatchMissing(m, s, a, target, |Batch(m, s, a, target)|)| > s.remaining {
      TooMuchMissing(m, s, a, target);
    } else if Visit(m, s, a, target).cursors[a].exhausted {
      LastBatchCovers(m, s, a, target);
    }
  }

  /** An account marked exhausted is never visited again under the same generation, so what it lacks
      then it lacks for good. */
  lemma {:induction false} ExhaustedIsFinal(m: Mail, s: State, ticks: seq<Tick>, a: AccountId, generation: nat,
      id: MessageId)
    requires a in s.cursors && s.cursors[a] == Cursor(generation, s.cursors[a].lastRowId, true)
    requires forall tick <- ticks :: a in tick.leases && tick.leases[a] == generation
    requires WellFormed(m) && Covered(m, s.cursors, s.events) && NoneTwice(s.events)
    ensures var t := Run(m, s, ticks);
            && a in t.cursors && t.cursors[a] == s.cursors[a]
            && (Event(a, generation, id) in t.events <==> Event(a, generation, id) in s.events)
    decreases |ticks|
  {
    if ticks != [] {
      var now := m.(leases := ticks[0].leases);
      var target := Target(ticks[0].limit);
      ExhaustedIsSkipped(now, s.(remaining := target), m.accounts, target, a, id);
      VisitAllKeeps(now, s.(remaining := target), m.accounts, target);
      ExhaustedIsFinal(m, Step(m, s, ticks[0]), ticks[1..], a, generation, id);
    }
  }

  lemma ExhaustedVisit(m: Mail, s: State, b: AccountId, target: nat, a: AccountId, id: MessageId)
    requires WellFormed(m) && Covered(m, s.cursors, s.events) && NoneTwice(s.events) && s.remaining > 0
    requires a in s.cursors && s.cursors[a].exhausted && a in m.leases && m.leases[a] == s.cursors[a].generation
    ensures var t := Visit(m, s, b, target);
            && a in t.cursors && t.cursors[a] == s.cursors[a]
            && (Event(a, m.leases[a], id) in t.events <==> Event(a, m.leases[a], id) in s.events)
  {
    if b == a {
      assert Visit(m, s, b, target) == s;
    } else {
      hide Visit, WellFormed, Covered, NoneTwice;
      VisitKeeps(m, s, b, target);
      NotAmongOthers(s.events, Visit(m, s, b, target).events, Event(a, m.leases[a], id));
    }
  }

  lemma NotAmongOthers(before: seq<Event>, after: seq<Event>, e: Event)
    requires before <= after && forall x <- after[|before|..] :: x.account != e.account
    ensures e in after <==> e in before
  {
    assert after == before + after[|before|..];
  }

  lemma {:induction false} ExhaustedIsSkipped(m: Mail, s: State, accounts: seq<AccountId>, target: nat,
                                              a: AccountId, id: MessageId)
    requires WellFormed(m) && Covered(m, s.cursors, s.events) && NoneTwice(s.events)
    requires a in s.cursors && s.cursors[a].exhausted && a in m.leases && m.leases[a] == s.cursors[a].generation
    ensures var t := VisitAll(m, s, accounts, target);
            && a in t.cursors && t.cursors[a] == s.cursors[a]
            && (Event(a, m.leases[a], id) in t.events <==> Event(a, m.leases[a], id) in s.events)
    decreases |accounts|
  {
    hide Visit, WellFormed, Covered, NoneTwice;
    if accounts != [] && s.remaining > 0 {
      VisitKeeps(m, s, accounts[0], target);
      ExhaustedVisit(m, s, accounts[0], target, a, id);
      ExhaustedIsSkipped(m, Visit(m, s, accounts[0], target), accounts[1..], target, a, id);
    }
  }

  /** So a visit that is cut short strands a message, whatever passes follow under that generation. */
  lemma CutShortStrandsForGood(m: Mail, s: State, a: AccountId, target: nat, ticks: seq<Tick>)
    requires WellFormed(m) && Covered(m, s.cursors, s.events) && NoneTwice(s.events)
    requires s.remaining > 0 && a in m.leases && !CursorOf(s.cursors, a, m.leases[a]).exhausted
    requires CutShort(m, s, a, target)
    requires forall tick <- ticks :: a in tick.leases && tick.leases[a] == m.leases[a]
    ensures !AllSourced(m, a, m.leases[a], Run(m, Visit(m, s, a, target), ticks).events)
  {
    var t := Visit(m, s, a, target);
    ExhaustedWronglyExactlyWhenCutShort(m, s, a, target);
    VisitKeeps(m, s, a, target);
    var row :| row in RowsOf(m, a) && !Sourced(t.events, a, m.leases[a], row);
    ExhaustedIsFinal(m, t, ticks, a, m.leases[a], row.id);
    assert !Sourced(Run(m, t, ticks).events, a, m.leases[a], row);
  }

  /** Two accounts are enough: with a limit of 3 the first account spends two, and the second, which
      holds two messages, is cut short after one. */
  lemma TwoAccountsCanStrand()
    ensures var m := Mail(["a", "b"], map["a" := [Row(1, "m1"), Row(2, "m2")], "b" := [Row(3, "m3"), Row(4, "m4")]],
                          map["a" := 1, "b" := 1]);
            var s := Visit(m, State(map[], [], Target(3)), "a", Target(3));
            s.remaining > 0 && !CursorOf(s.cursors, "b", 1).exhausted && CutShort(m, s, "b", Target(3))
  {
    var m := Mail(["a", "b"], map["a" := [Row(1, "m1"), Row(2, "m2")], "b" := [Row(3, "m3"), Row(4, "m4")]],
                  map["a" := 1, "b" := 1]);
    var start := State(map[], [], 3);
    var rows := m.rows["a"];
    assert Batch(m, start, "a", 3) == rows && Existing([], "a", 1, rows) == {};
    var one := Scanned([Event("a", 1, "m1")], 2, 1);
    assert rows[1..] == [rows[1]] && rows[1..][1..] == [];
    assert Scan("a", 1, rows[1..], {}, one) == Scanned(one.events + [Event("a", 1, "m2")], 1, 2);
    assert Scan("a", 1, rows, {}, Scanned([], 3, 0)) == Scanned(one.events + [Event("a", 1, "m2")], 1, 2);
    var s := Visit(m, start, "a", 3);
    assert s.remaining == 1 && s.events == [Event("a", 1, "m1"), Event("a", 1, "m2")];
    var batch := m.rows["b"];
    assert Batch(m, s, "b", 3) == batch && Existing(s.events, "b", 1, batch) == {};
    assert batch[..2] == batch && batch[1..] == [batch[1]] && batch[1..][1..] == [];
    assert |Missing("b", 1, batch, {})| == 2;
  }

  // ----- One account -----

  function Repeat(m: Mail, s: State, limit: int, n: nat): State
    decreases n
  {
    if n == 0 then s else Repeat(m, Pass(m, s, limit), limit, n - 1)
  }

  /** What the sole account still has in front of its cursor. */
  function Ahead(m: Mail, s: State, a: AccountId): nat
    requires a in m.leases
  {
    |RowsAfter(RowsOf(m, a), CursorOf(s.cursors, a, m.leases[a]).lastRowId)|
  }

  lemma FewerBehind(rows: seq<Row>, last: nat, i: nat)
    requires RowsAscend(rows) && i < |rows| && rows[i].rowId > last
    ensures |RowsAfter(rows, rows[i].rowId)| < |RowsAfter(rows, last)|
  {
    RowsAfterSplits(rows, last);
    RowsAfterSplits(rows, rows[i].rowId);
    hide RowsAfter;
  }

  lemma BatchIsAhead(m: Mail, s: State, a: AccountId, target: nat, k: nat) returns (i: nat)
    requires WellFormed(m) && Scans(m, s, a, target) && k < |Batch(m, s, a, target)|
    ensures i < |RowsOf(m, a)| && RowsOf(m, a)[i] == Batch(m, s, a, target)[k]
    ensures RowsOf(m, a)[i].rowId > CursorOf(s.cursors, a, m.leases[a]).lastRowId
  {
    var rows, last := RowsOf(m, a), CursorOf(s.cursors, a, m.leases[a]).lastRowId;
    AccountRowsAscend(m, a);
    RowsAfterSplits(rows, last);
    assert Batch(m, s, a, target)[k] == RowsAfter(rows, last)[k];
    hide *;
    i := |rows| - |RowsAfter(rows, last)| + k;
  }

  lemma VisitAdvances(m: Mail, s: State, a: AccountId, target: nat)
    requires WellFormed(m) && s.remaining > 0 && Scans(m, s, a, target)
    ensures Ahead(m, Visit(m, s, a, target), a) < Ahead(m, s, a)
  {
    var k := VisitScans(m, s, a, target);
    var i := BatchIsAhead(m, s, a, target, k - 1);
    AccountRowsAscend(m, a);
    hide Visit, Batch, WellFormed, Scans, RowsAscend;
    FewerBehind(RowsOf(m, a), CursorOf(s.cursors, a, m.leases[a]).lastRowId, i);
  }

  /** A pass with the whole budget for one account is never cut short, so it either covers the account
      or moves on. */
  lemma SolePass(m: Mail, s: State, a: AccountId, limit: int)
    requires WellFormed(m) && Covered(m, s.cursors, s.events) && NoneTwice(s.events)
    requires m.accounts == [a] && a in m.leases && !CursorOf(s.cursors, a, m.leases[a]).exhausted
    ensures var t := Pass(m, s, limit);
            && Covered(m, t.cursors, t.events) && NoneTwice(t.events)
            && (if CursorOf(t.cursors, a, m.leases[a]).exhausted then AllSourced(m, a, m.leases[a], t.events)
                else Ahead(m, t, a) < Ahead(m, s, a))
  {
    var full := s.(remaining := Target(limit));
    var batch := Batch(m, full, a, full.remaining);
    assert m.accounts[1..] == []
        && VisitAll(m, Visit(m, full, a, full.remaining), [], full.remaining) == Visit(m, full, a, full.remaining);
    VisitKeeps(m, full, a, full.remaining);
    MissingAtMost(a, m.leases[a], batch[..|batch|], Existing(s.events, a, m.leases[a], batch));
    ExhaustedWronglyExactlyWhenCutShort(m, full, a, full.remaining);
    if Scans(m, full, a, full.remaining) {
      VisitAdvances(m, full, a, full.remaining);
      VisitCoversBatch(m, full, a, full.remaining);
    }
  }

  /** So as many passes as it has rows ahead, and one more, give every message its event. */
  lemma {:induction false} SoleAccountFinishes(m: Mail, s: State, a: AccountId, limit: int, n: nat)
    requires WellFormed(m) && Covered(m, s.cursors, s.events) && NoneTwice(s.events)
    requires m.accounts == [a] && a in m.leases && n > Ahead(m, s, a)
    requires CursorOf(s.cursors, a, m.leases[a]).exhausted ==> AllSourced(m, a, m.leases[a], s.events)
    ensures AllSourced(m, a, m.leases[a], Repeat(m, s, limit, n).events)
    decreases n
  {
    if CursorOf(s.cursors, a, m.leases[a]).exhausted {
      RepeatKeeps(m, s, a, limit, n);
    } else {
      SolePass(m, s, a, limit);
      var t := Pass(m, s, limit);
      if CursorOf(t.cursors, a, m.leases[a]).exhausted {
        RepeatKeeps(m, t, a, limit, n - 1);
      } else {
        SoleAccountFinishes(m, t, a, limit, n - 1);
      }
    }
  }

  lemma {:induction false} MissingAtMost(a: AccountId, generation: nat, batch: seq<Row>, existing: set<MessageId>)
    ensures |Missing(a, generation, batch, existing)| <= |batch|
  {
    if batch != [] {
      MissingAtMost(a, generation, batch[1..], existing);
    }
  }

  lemma {:induction false} RepeatKeeps(m: Mail, s: State, a: AccountId, limit: int, n: nat)
    requires WellFormed(m) && Covered(m, s.cursors, s.events) && NoneTwice(s.events)
    requires a in m.leases && AllSourced(m, a, m.leases[a], s.events)
    ensures AllSourced(m, a, m.leases[a], Repeat(m, s, limit, n).events)
    decreases n
  {
    if n > 0 {
      VisitAllKeeps(m, s.(remaining := Target(limit)), m.accounts, Target(limit));
      RepeatKeeps(m, Pass(m, s, limit), a, limit, n - 1);
    }
  }
}
