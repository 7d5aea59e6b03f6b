/** Moving message payloads from plaintext columns into the encrypted column (message-storage.ts).

    Encryption is an ideal AEAD: an envelope opens only with the key and the associated data (message and
    account) it was sealed with. */
module PayloadMigration {
  import opened Optional
  import opened StoredPayload

  type Key(==)
  type Id = string

  const VERSION: int := 1
  const PAGE_SIZE: nat := 200
  const MAX_REPORTED: nat := 50

  datatype Aad = Aad(account: string, id: Id)
  datatype Envelope = EmptyText | Sealed(key: Key, aad: Aad, content: Json)

  datatype Row = Row(rowid: nat, id: Id, account: string, columns: Columns, encrypted: Option<Envelope>, version: int)

  function Open(e: Envelope, key: Key, aad: Aad): Option<Json> {
    if e.Sealed? && e.key == key && e.aad == aad then Some(e.content) else None
  }

  /** What decrypting the row without any cache gives; `Invalid` is a throw. */
  function PayloadOf(row: Row, key: Key): Normalized {
    if row.encrypted.None? || row.encrypted.value.EmptyText? then Ok(LegacyPayload(row.columns))
    else
      var plain := Open(row.encrypted.value, key, Aad(row.account, row.id));
      if plain.None? then Invalid else Normalize(plain.value)
  }

  // ----- One row -----

  const CLEARED: Columns :=
    Columns(None, "", "", "", Holds(Some(Array([]))), Holds(Some(Array([]))), None, Holds(Some(Array([]))),
            "", "", "", Holds(Some(Array([]))))

  /** `COALESCE(column, '[]') <> '[]'`. */
  predicate Listed(c: Column) {
    c != NullColumn && c != Holds(Some(Array([])))
  }

  predicate HasPlaintext(c: Columns) {
    || c.messageId.Some? || c.subject != "" || c.fromName != "" || c.fromAddress != ""
    || Listed(c.to) || Listed(c.cc) || c.inReplyTo.Some? || Listed(c.references)
    || c.snippet != "" || c.textBody != "" || c.htmlBody != "" || Listed(c.attachments)
  }

  predicate Needs(row: Row) {
    row.encrypted.None? || row.encrypted.value.EmptyText? || row.version != VERSION || HasPlaintext(row.columns)
  }

  function Rewritten(row: Row, p: Payload, key: Key): Row {
    row.(columns := CLEARED, encrypted := Some(Sealed(key, Aad(row.account, row.id), ToJson(p))), version := VERSION)
  }

  /** A row after the migration: rewritten if it needs to be, otherwise as it was. */
  function Migrated(row: Row, key: Key): Row {
    if Needs(row) && PayloadOf(row, key).Ok? then Rewritten(row, PayloadOf(row, key).payload, key) else row
  }

  /** Rewriting a row that can be read keeps what it reads as, leaves no plaintext, and is not repeated. */
  lemma RowKeepsItsPayload(row: Row, key: Key)
    ensures PayloadOf(Migrated(row, key), key) == PayloadOf(row, key)
    ensures PayloadOf(row, key).Ok? ==> !Needs(Migrated(row, key)) && !HasPlaintext(Migrated(row, key).columns)
  {
    hide Normalize, LegacyPayload, ToJson, Normal;
    if Needs(row) {
      if row.encrypted.None? || row.encrypted.value.EmptyText? {
        ReadersAreNormal(Null, row.columns);
      } else {
        var plain := Open(row.encrypted.value, key, Aad(row.account, row.id));
        if plain.Some? {
          ReadersAreNormal(plain.value, row.columns);
        }
      }
    }
  }

  // ----- The table -----

  /** Rows in rowid order; `UPDATE … WHERE id = ?` reaches one row. */
  ghost predicate Keyed(rows: seq<Row>) {
    && (forall i | 0 <= i < |rows| :: rows[i].rowid > 0)
    && (forall i, j | 0 <= i < j < |rows| :: rows[i].rowid < rows[j].rowid && rows[i].id != rows[j].id)
  }

  function AllMigrated(rows: seq<Row>, key: Key): (out: seq<Row>)
    ensures |out| == |rows|
  {
    seq(|rows|, i requires 0 <= i < |rows| => Migrated(rows[i], key))
  }

  predicate Readable(rows: seq<Row>, key: Key) {
    forall i | 0 <= i < |rows| :: PayloadOf(rows[i], key).Ok?
  }

  /** Every row that needs rewriting can be read. */
  predicate Rewritable(rows: seq<Row>, key: Key) {
    forall i | 0 <= i < |rows| && Needs(rows[i]) :: PayloadOf(rows[i], key).Ok?
  }

  function CountNeeding(rows: seq<Row>): nat {
    if rows == [] then 0 else CountNeeding(rows[..|rows| - 1]) + if Needs(rows[|rows| - 1]) then 1 else 0
  }

  /** The places of the rows one page selects, from place `from` on: those past the cursor that match. */
  function PageFrom(rows: seq<Row>, cursor: nat, test: Row -> bool, limit: nat, from: nat): (places: seq<nat>)
    requires from <= |rows|
    ensures |places| <= limit
    ensures forall i | 0 <= i < |places| :: from <= places[i] < |rows|
    decreases |rows| - from
  {
    if limit == 0 || from == |rows| then []
    else if rows[from].rowid > cursor && test(rows[from])
        then [from] + PageFrom(rows, cursor, test, limit - 1, from + 1)
    else PageFrom(rows, cursor, test, limit, from + 1)
  }

  /** The first place of a page: nothing before it matches, and the page goes on from there. */
  lemma {:induction false} PageHead(rows: seq<Row>, cursor: nat, test: Row -> bool, limit: nat, from: nat)
    requires from <= |rows| && limit > 0
    ensures var places := PageFrom(rows, cursor, test, limit, from);
            var end := if places == [] then |rows| else places[0];
            && (forall k | from <= k < end :: rows[k].rowid > cursor ==> !test(rows[k]))
            && (places != [] ==>
                  && test(rows[end]) && rows[end].rowid > cursor
                  && places[1..] == PageFrom(rows, cursor, test, limit - 1, end + 1))
    decreases |rows| - from
  {
    if from < |rows| && !(rows[from].rowid > cursor && test(rows[from])) {
      PageHead(rows, cursor, test, limit, from + 1);
    }
  }

  /** A page does not look at rows behind the cursor. */
  lemma {:induction false} PageSkipsBehind(rows: seq<Row>, cursor: nat, test: Row -> bool, limit: nat, from: nat,
      m: nat)
    requires from <= m <= |rows| && forall k | from <= k < m :: rows[k].rowid <= cursor
    ensures PageFrom(rows, cursor, test, limit, from) == PageFrom(rows, cursor, test, limit, m)
    decreases m - from
  {
    if from < m {
      PageSkipsBehind(rows, cursor, test, limit, from + 1, m);
    }
    if limit == 0 {
      assert PageFrom(rows, cursor, test, limit, m) == [];
    }
  }

  lemma {:induction false} PageSameRest(rows: seq<Row>, before: seq<Row>, cursor: nat, test: Row -> bool, limit: nat,
      from: nat)
    requires from <= |rows| == |before| && forall k | from <= k < |rows| :: rows[k] == before[k]
    ensures PageFrom(rows, cursor, test, limit, from) == PageFrom(before, cursor, test, limit, from)
    decreases |rows| - from
  {
    if limit > 0 && from < |rows| {
      if rows[from].rowid > cursor && test(rows[from]) {
        PageSameRest(rows, before, cursor, test, limit - 1, from + 1);
      } else {
        PageSameRest(rows, before, cursor, test, limit, from + 1);
      }
    }
  }

  /** Rows before `m` are done, those that needed it because they could be read; rows from `m` on are as
      they were. */
  ghost predicate DoneUpTo(rows: seq<Row>, before: seq<Row>, m: nat, key: Key) {
    && |rows| == |before| && m <= |before|
    && (forall i | 0 <= i < m :: rows[i] == Migrated(before[i], key))
    && Rewritable(before[..m], key)
    && (forall i | m <= i < |before| :: rows[i] == before[i])
  }

  lemma SkipOne(rows: seq<Row>, before: seq<Row>, m: nat, key: Key)
    requires DoneUpTo(rows, before, m, key) && m < |before| && !Needs(before[m])
    ensures DoneUpTo(rows, before, m + 1, key) && CountNeeding(before[..m + 1]) == CountNeeding(before[..m])
  {
    hide Needs, PayloadOf, Rewritten;
    assert before[..m + 1][..m] == before[..m];
  }

  /** Rows that need nothing may be counted as done. */
  lemma {:induction false} SkipIdle(rows: seq<Row>, before: seq<Row>, m: nat, n: nat, key: Key)
    requires DoneUpTo(rows, before, m, key) && m <= n <= |before|
    requires forall i | m <= i < n :: !Needs(before[i])
    ensures DoneUpTo(rows, before, n, key) && CountNeeding(before[..n]) == CountNeeding(before[..m])
    decreases n - m
  {
    hide *;
    if m < n {
      SkipIdle(rows, before, m, n - 1, key);
      SkipOne(rows, before, n - 1, key);
    }
  }

  lemma DoneNext(rows: seq<Row>, before: seq<Row>, m: nat, key: Key)
    requires DoneUpTo(rows, before, m, key) && m < |before| && Needs(before[m])
    ensures |rows| == |before| && rows[m] == before[m]
    ensures PayloadOf(before[m], key).Invalid? ==> !Rewritable(before, key)
    ensures PayloadOf(before[m], key).Ok? ==>
              DoneUpTo(rows[m := Rewritten(before[m], PayloadOf(before[m], key).payload, key)], before, m + 1, key)
  {
    hide PayloadOf, Needs, Rewritten;
  }

  lemma CountNext(rows: seq<Row>, m: nat)
    requires m < |rows| && Needs(rows[m])
    ensures CountNeeding(rows[..m + 1]) == CountNeeding(rows[..m]) + 1
  {
    assert rows[..m + 1][..m] == rows[..m];
  }

  lemma NothingDone(rows: seq<Row>, key: Key)
    ensures CountNeeding(rows[..0]) == 0 && DoneUpTo(rows, rows, 0, key)
  {
  }

  /** The next page, read from the table as it now is, is the next page of the table as it was. */
  lemma PageResumes(rows: seq<Row>, before: seq<Row>, cursor: nat, m: nat, key: Key)
    requires Keyed(before) && DoneUpTo(rows, before, m, key)
    requires cursor == if m == 0 then 0 else before[m - 1].rowid
    ensures PageFrom(rows, cursor, Needs, PAGE_SIZE, 0) == PageFrom(before, cursor, Needs, PAGE_SIZE, m)
    ensures forall k | m <= k < |before| :: before[k].rowid > cursor
  {
    hide Needs, PayloadOf;
    forall k | 0 <= k < m ensures rows[k].rowid <= cursor {
      assert rows[k] == Migrated(before[k], key);
      assert k == m - 1 || before[k].rowid < before[m - 1].rowid;
    }
    PageSkipsBehind(rows, cursor, Needs, PAGE_SIZE, 0, m);
    PageSameRest(rows, before, cursor, Needs, PAGE_SIZE, m);
  }

  // ----- The sweep that proves every row readable -----

  predicate Any(row: Row) {
    true
  }

  /** The ids of the rows that cannot be read, in rowid order. */
  function UnreadableIds(rows: seq<Row>, key: Key): seq<Id> {
    if rows == [] then []
    else
      var last := rows[|rows| - 1];
      UnreadableIds(rows[..|rows| - 1], key) + if PayloadOf(last, key).Ok? then [] else [last.id]
  }

  /** As many of them as the error names, and as it counts. */
  function Sample(ids: seq<Id>): seq<Id> {
    if |ids| <= MAX_REPORTED then ids else ids[..MAX_REPORTED]
  }

  datatype Sweep = Sweep(total: nat, verified: nat, unreadable: seq<Id>)

  /** An empty page of all rows is the end of the table. */
  lemma NoRowsLeft(rows: seq<Row>, cursor: nat, limit: nat, from: nat)
    requires limit > 0 && from <= |rows| && forall i | from <= i < |rows| :: rows[i].rowid > cursor
    requires PageFrom(rows, cursor, Any, limit, from) == []
    ensures from == |rows|
  {
  }

  /** What the sweep has seen after the first `k` rows. */
  ghost predicate Swept(rows: seq<Row>, k: nat, key: Key, s: Sweep) {
    && k <= |rows| && s.total == k
    && s.unreadable == Sample(UnreadableIds(rows[..k], key))
    && s.verified + |UnreadableIds(rows[..k], key)| == k
  }

  lemma NothingSwept(rows: seq<Row>, key: Key)
    ensures Swept(rows, 0, key, Sweep(0, 0, []))
  {
  }

  lemma SweepNext(rows: seq<Row>, k: nat, key: Key, s: Sweep)
    requires k < |rows| && Swept(rows, k, key, s)
    ensures var n := s.(total := s.total + 1);
            Swept(rows, k + 1, key,
                  if PayloadOf(rows[k], key).Ok? then n.(verified := n.verified + 1)
                  else if |n.unreadable| < MAX_REPORTED then n.(unreadable := n.unreadable + [rows[k].id])
                  else n)
  {
    hide PayloadOf;
    assert rows[..k + 1][..k] == rows[..k];
  }

  lemma {:induction false} NoneUnreadable(rows: seq<Row>, key: Key)
    ensures UnreadableIds(rows, key) == [] <==> Readable(rows, key)
  {
    hide PayloadOf;
    if rows != [] {
      NoneUnreadable(rows[..|rows| - 1], key);
    }
  }

  lemma MigratedKeyed(rows: seq<Row>, key: Key)
    requires Keyed(rows)
    ensures Keyed(AllMigrated(rows, key))
  {
    hide PayloadOf, Needs;
  }

  // ----- The startup pass -----

  /** Something was rewritten, or no earlier pass has left its marker. */
  predicate SweepOwed(rows: seq<Row>, markerPresent: bool) {
    !markerPresent || CountNeeding(rows) > 0
  }

  datatype Outcome = Returned(migrated: nat, vacuumed: bool) | RolledBack | Unverified

  class MessageTable {
    var rows: seq<Row>
    var markerPresent: bool

    constructor (rows: seq<Row>, markerPresent: bool)
      ensures this.rows == rows && this.markerPresent == markerPresent
    {
      this.rows, this.markerPresent := rows, markerPresent;
    }

    /** One page, rewritten row by row; an unreadable row throws. Rows before `m` are done already. */
    method RewritePage(places: seq<nat>, key: Key, ghost before: seq<Row>, ghost m: nat, ghost cursor: nat)
      returns (ok: bool, ghost done: nat)
      requires DoneUpTo(rows, before, m, key) && m <= |before| && |places| <= PAGE_SIZE
      requires places == PageFrom(before, cursor, Needs, PAGE_SIZE, m)
      requires forall k | m <= k < |before| :: before[k].rowid > cursor
      modifies `rows
      ensures m <= done <= |before|
      ensures ok ==> DoneUpTo(rows, before, done, key) && done == (if places == [] then m else places[|places| - 1] + 1)
                     && CountNeeding(before[..done]) == CountNeeding(before[..m]) + |places|
      ensures ok && |places| < PAGE_SIZE ==> forall k | done <= k < |before| :: !Needs(before[k])
      ensures !ok ==> !Rewritable(before, key)
    {
      hide *;
      done := m;
      for j := 0 to |places|
        invariant m <= done <= |before| && DoneUpTo(rows, before, done, key)
        invariant done == if j == 0 then m else places[j - 1] + 1
        invariant CountNeeding(before[..done]) == CountNeeding(before[..m]) + j
        invariant places[j..] == PageFrom(before, cursor, Needs, PAGE_SIZE - j, done)
      {
        PageHead(before, cursor, Needs, PAGE_SIZE - j, done);
        var at := places[j];
        assert places[j..][0] == at && places[j..][1..] == places[j + 1..];
        SkipIdle(rows, before, done, at, key);
        CountNext(before, at);
        DoneNext(rows, before, at, key);
        var payload := PayloadOf(rows[at], key);
        if payload.Invalid? {
          return false, done;
        }
        rows := rows[at := Rewritten(rows[at], payload.payload, key)];
        done := at + 1;
      }
      if |places| < PAGE_SIZE {
        PageHead(before, cursor, Needs, PAGE_SIZE - |places|, done);
      }
      ok := true;
    }

    /** Pages of rows that need work, in one transaction: a throw rolls everything back. */
    method RewriteAll(key: Key) returns (ok: bool, migrated: nat)
      requires Keyed(rows)
      modifies `rows
      ensures ok <==> Rewritable(old(rows), key)
      ensures ok ==> rows == AllMigrated(old(rows), key) && migrated == CountNeeding(old(rows))
      ensures !ok ==> rows == old(rows)
    {
      hide Needs, Migrated, PayloadOf, Rewritable, CountNeeding, PageFrom;
      var snapshot := rows;
      ghost var k := 0;
      var cursor := 0;
      migrated := 0;
      NothingDone(snapshot, key);
      while true
        invariant |rows| == |snapshot| && k <= |snapshot| && DoneUpTo(rows, snapshot, k, key)
        invariant cursor == if k == 0 then 0 else snapshot[k - 1].rowid
        invariant migrated == CountNeeding(snapshot[..k])
        decreases |snapshot| - k
      {
        hide DoneUpTo;
        var page := PageFrom(rows, cursor, Needs, PAGE_SIZE, 0);
        PageResumes(rows, snapshot, cursor, k, key);
        if |page| == 0 {
          PageHead(snapshot, cursor, Needs, PAGE_SIZE, k);
          break;
        }
        var last := rows[page[|page| - 1]].rowid;
        ghost var done;
        ok, done := RewritePage(page, key, snapshot, k, cursor);
        if !ok {
          rows := snapshot;
          return;
        }
        k := done;
        migrated := migrated + |page|;
        cursor := last;
        if |page| < PAGE_SIZE {
          break;
        }
      }
      SkipIdle(rows, snapshot, k, |snapshot|, key);
      assert snapshot[..|snapshot|] == snapshot;
      ok := true;
    }

    /** One page of the sweep. */
    method VerifyPage(batch: seq<nat>, key: Key, before: Sweep, ghost k: nat, ghost cursor: nat) returns (s: Sweep)
      requires k <= |rows| && |batch| <= PAGE_SIZE
      requires batch == PageFrom(rows, cursor, Any, PAGE_SIZE, k)
      requires forall i | k <= i < |rows| :: rows[i].rowid > cursor
      requires Swept(rows, k, key, before)
      ensures k + |batch| <= |rows| && Swept(rows, k + |batch|, key, s)
      ensures |batch| < PAGE_SIZE ==> k + |batch| == |rows|
      ensures |batch| > 0 ==> batch[|batch| - 1] == k + |batch| - 1
    {
      hide PayloadOf, PageFrom, Swept;
      s := before;
      for j := 0 to |batch|
        invariant k + j <= |rows| && Swept(rows, k + j, key, s)
        invariant batch[j..] == PageFrom(rows, cursor, Any, PAGE_SIZE - j, k + j)
        invariant j > 0 ==> batch[j - 1] == k + j - 1
      {
        PageHead(rows, cursor, Any, PAGE_SIZE - j, k + j);
        assert batch[j..][0] == batch[j] && batch[j..][1..] == batch[j + 1..];
        assert Any(rows[k + j]);
        SweepNext(rows, k + j, key, s);
        s := s.(total := s.total + 1);
        if PayloadOf(rows[batch[j]], key).Ok? {
          s := s.(verified := s.verified + 1);
        } else if |s.unreadable| < MAX_REPORTED {
          s := s.(unreadable := s.unreadable + [rows[batch[j]].id]);
        }
      }
      if |batch| < PAGE_SIZE {
        NoRowsLeft(rows, cursor, PAGE_SIZE - |batch|, k + |batch|);
      }
    }

    /** Decrypts every row, page by page, and throws after the sweep when some row cannot be read. */
    method VerifyEncryptedPayloads(key: Key) returns (ok: bool, s: Sweep)
      requires Keyed(rows)
      ensures (ok <==> Readable(rows, key)) && (ok ==> s.verified == |rows|)
      ensures s.total == |rows| == s.verified + |UnreadableIds(rows, key)|
      ensures s.unreadable == Sample(UnreadableIds(rows, key))
    {
      hide PayloadOf, PageFrom;
      ghost var k := 0;
      var cursor := 0;
      s := Sweep(0, 0, []);
      NothingSwept(rows, key);
      while true
        invariant k <= |rows| && cursor == if k == 0 then 0 else rows[k - 1].rowid
        invariant Swept(rows, k, key, s)
        decreases |rows| - k
      {
        var batch := PageFrom(rows, cursor, Any, PAGE_SIZE, 0);
        PageSkipsBehind(rows, cursor, Any, PAGE_SIZE, 0, k);
        if |batch| == 0 {
          NoRowsLeft(rows, cursor, PAGE_SIZE, k);
          break;
        }
        s := VerifyPage(batch, key, s, k, cursor);
        k := k + |batch|;
        cursor := rows[batch[|batch| - 1]].rowid;
        if |batch| < PAGE_SIZE {
          break;
        }
      }
      assert rows[..|rows|] == rows;
      NoneUnreadable(rows, key);
      ok := |s.unreadable| == 0;
    }

    /** The startup pass. The sweep is owed when the marker is missing or something was rewritten; the
        marker is written only after a clean sweep. */
    method MigrateMessageStorage(key: Key) returns (outcome: Outcome)
      requires Keyed(rows)
      modifies this
      ensures outcome.RolledBack? <==> !Rewritable(old(rows), key)
      ensures outcome.Unverified? <==>
                Rewritable(old(rows), key) && SweepOwed(old(rows), old(markerPresent)) && !Readable(old(rows), key)
      ensures rows == if outcome.RolledBack? then old(rows) else AllMigrated(old(rows), key)
      ensures markerPresent == (old(markerPresent) || outcome.Returned?)
      ensures outcome.Returned? ==>
                && outcome.migrated == CountNeeding(old(rows))
                && (outcome.vacuumed <==> outcome.migrated > 0 || (!old(markerPresent) && |rows| > 0))
    {
      hide PayloadOf, Needs, Migrated, Readable, Rewritable, CountNeeding;
      AsReadable(rows, key);
      var ok, migrated := RewriteAll(key);
      if !ok {
        return RolledBack;
      }
      var sweep := Sweep(0, 0, []);
      if !markerPresent || migrated > 0 {
        MigratedKeyed(old(rows), key);
        ok, sweep := VerifyEncryptedPayloads(key);
        if !ok {
          return Unverified;
        }
      }
      var vacuumed := migrated > 0 || (!markerPresent && sweep.verified > 0);
      markerPresent := true;
      outcome := Returned(migrated, vacuumed);
    }
  }

  // ----- What a pass means -----

  /** Any pass, even one that throws, leaves every row reading as it did. */
  lemma PassKeepsEveryPayload(rows: seq<Row>, key: Key)
    ensures forall i | 0 <= i < |rows| :: PayloadOf(AllMigrated(rows, key)[i], key) == PayloadOf(rows[i], key)
  {
    forall i | 0 <= i < |rows|
      ensures PayloadOf(AllMigrated(rows, key)[i], key) == PayloadOf(rows[i], key)
    {
      RowKeepsItsPayload(rows[i], key);
    }
  }

  lemma AsReadable(rows: seq<Row>, key: Key)
    ensures Readable(AllMigrated(rows, key), key) <==> Readable(rows, key)
  {
    PassKeepsEveryPayload(rows, key);
    hide PayloadOf, Migrated;
    var out := AllMigrated(rows, key);
    assert forall i | 0 <= i < |rows| :: PayloadOf(out[i], key) == PayloadOf(rows[i], key);
  }

  /** After a pass that returned no plaintext is left and nothing needs work, so a second pass changes
      nothing. (A pass that returns rewrote nothing or proved every row readable.) */
  lemma SecondPassIsIdle(rows: seq<Row>, key: Key)
    requires CountNeeding(rows) == 0 || Readable(AllMigrated(rows, key), key)
    ensures var once := AllMigrated(rows, key);
            && (forall i | 0 <= i < |once| :: !HasPlaintext(once[i].columns) && !Needs(once[i]))
            && CountNeeding(once) == 0 && AllMigrated(once, key) == once
  {
    hide PayloadOf, HasPlaintext;
    var once := AllMigrated(rows, key);
    if CountNeeding(rows) == 0 {
      NoneNeeds(rows);
    }
    forall i | 0 <= i < |rows|
      ensures !HasPlaintext(once[i].columns) && !Needs(once[i])
    {
      RowKeepsItsPayload(rows[i], key);
    }
    NoneCounted(once);
  }

  lemma {:induction false} NoneNeeds(rows: seq<Row>)
    requires CountNeeding(rows) == 0
    ensures forall i | 0 <= i < |rows| :: !Needs(rows[i])
  {
    if rows != [] {
      NoneNeeds(rows[..|rows| - 1]);
    }
  }

  lemma {:induction false} NoneCounted(rows: seq<Row>)
    requires forall i | 0 <= i < |rows| :: !Needs(rows[i])
    ensures CountNeeding(rows) == 0
  {
    if rows != [] {
      NoneCounted(rows[..|rows| - 1]);
    }
  }
}
