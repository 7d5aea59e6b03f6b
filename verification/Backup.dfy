/** The streaming backup (backup.ts): a paged walk over every stored row that keeps one folder open,
    fetches its messages in chunks and accounts for each row once, whatever the provider, the archive
    or the transfer does.

    The message table does not change while the walk runs. What the provider streams, whether a
    folder opens and how the archive answers are arbitrary at every step. A row's `title` is what its
    cleaned subject contributes to the archive name. */
module Backup {
  import opened Keyset
  import opened Optional
  import opened Sequences
  import opened TextOrder

  type AccountId = string
  type Mailbox = string
  type MailError = string
  type Source = seq<bv8>
  type FolderKey = (AccountId, Mailbox)

  const PAGE_SIZE: nat := 1000
  const CHUNK_SIZE: nat := 100

  datatype Row = Row(id: string, account: AccountId, mailbox: Mailbox, sortKey: string, uid: int, title: string,
                     destination: Option<Mailbox>, moveState: Option<string>, remoteLookup: Option<string>)

  // ----- The walk order -----

  datatype Position = Position(account: AccountId, mailbox: Mailbox, sortKey: string, uid: int)

  function PositionOf(r: Row): Position {
    Position(r.account, r.mailbox, r.sortKey, r.uid)
  }

  function FolderOf(r: Row): FolderKey {
    (r.account, r.mailbox)
  }

  predicate FolderBefore(f: FolderKey, g: FolderKey) {
    Less(f.0, g.0) || (f.0 == g.0 && Less(f.1, g.1))
  }

  /** SQLite's row-value comparison. */
  predicate Before(p: Position, q: Position) {
    || FolderBefore((p.account, p.mailbox), (q.account, q.mailbox))
    || (p.account == q.account && p.mailbox == q.mailbox
        && (Less(p.sortKey, q.sortKey) || (p.sortKey == q.sortKey && p.uid < q.uid)))
  }

  predicate RowBefore(r: Row, s: Row) {
    Before(PositionOf(r), PositionOf(s))
  }

  /** UNIQUE(account_id, mailbox, uid) and the primary key. */
  ghost predicate Keyed(table: set<Row>) {
    forall r <- table, s <- table :: r != s ==> r.id != s.id && (FolderOf(r) != FolderOf(s) || r.uid != s.uid)
  }

  lemma FolderBeforeIsStrict()
    ensures forall f :: !FolderBefore(f, f)
    ensures forall f, g, h :: FolderBefore(f, g) && FolderBefore(g, h) ==> FolderBefore(f, h)
  {
    LessIsStrict();
  }

  lemma WalkOrderIsTotal(table: set<Row>)
    requires Keyed(table)
    ensures Strict(RowBefore) && Total(table, RowBefore)
  {
    LessIsStrict();
    forall r <- table, s <- table | r != s ensures RowBefore(r, s) || RowBefore(s, r) {
      if r.account != s.account { LessTotal(r.account, s.account); }
      else if r.mailbox != s.mailbox { LessTotal(r.mailbox, s.mailbox); }
      else if r.sortKey != s.sortKey { LessTotal(r.sortKey, s.sortKey); }
    }
  }

  /** Every row, in the order the pages bring them. */
  function Walk(table: set<Row>): (walk: seq<Row>)
    requires Keyed(table)
    ensures Lists(walk, table, RowBefore) && Ascending(walk, RowBefore)
  {
    WalkOrderIsTotal(table);
    OrderBy(table, RowBefore)
  }

  function RowsAfter(table: set<Row>, cursor: Option<Position>): set<Row> {
    set r | r in table && (cursor.None? || Before(cursor.value, PositionOf(r)))
  }

  /** One page: `backupPageSql`. */
  function PageAfter(table: set<Row>, cursor: Option<Position>): seq<Row>
    requires Keyed(table)
  {
    WalkOrderIsTotal(table);
    Page(RowsAfter(table, cursor), RowBefore, PAGE_SIZE)
  }

  /** A page resumes exactly where the last one ended. */
  lemma PageContinues(table: set<Row>, cursor: Option<Position>, k: nat)
    requires Keyed(table) && k <= |Walk(table)|
    requires if k == 0 then cursor.None? else cursor == Some(PositionOf(Walk(table)[k - 1]))
    ensures var walk := Walk(table);
            var n := if |walk| - k <= PAGE_SIZE then |walk| - k else PAGE_SIZE;
            PageAfter(table, cursor) == walk[k..k + n] && (n == 0 ==> k == |walk|)
  {
    hide Strict, Total, Lists, Before;
    var walk, later := Walk(table), RowsAfter(table, cursor);
    WalkOrderIsTotal(table);
    WalkOrderIsTotal(later);
    PageIsNext(walk, table, later, RowBefore, k, PAGE_SIZE);
    assert walk[k..|walk|] == walk[k..];
  }

  // ----- Why a row cannot be fetched -----

  datatype MoveBlock = MovePending | LocationUnverified

  predicate Present(text: Option<string>) {
    text.Some? && text.value != ""
  }

  function MoveBlockOf(r: Row): Option<MoveBlock> {
    if !Present(r.destination) then None
    else if r.moveState == Some("confirmed") && !Present(r.remoteLookup) then Some(LocationUnverified)
    else Some(MovePending)
  }

  datatype Reason = Blocked(move: MoveBlock) | Gone | Fault(error: MailError)
  datatype Failure = Failure(messageId: string, reason: Reason)

  // ----- Archive names -----

  function Digit(n: nat): char
    requires n < 10
  {
    ('0' as int + n) as char
  }

  function Decimal(n: nat): string {
    if n < 10 then [Digit(n)] else Decimal(n / 10) + [Digit(n % 10)]
  }

  /** `padStart(width, "0")`. */
  function PadStart(s: string, width: nat): string
    decreases width - |s|
  {
    if |s| >= width then s else PadStart("0" + s, width)
  }

  function EntryName(title: string, index: nat): string {
    "emails/" + PadStart(Decimal(index), 4) + "_" + title + ".eml"
  }

  predicate Digits(s: string) {
    forall i | 0 <= i < |s| :: '0' <= s[i] <= '9'
  }

  function Value(s: string): nat
    requires Digits(s)
  {
    if s == "" then 0 else Value(s[..|s| - 1]) * 10 + (s[|s| - 1] as int - '0' as int)
  }

  lemma {:induction false} DecimalValue(n: nat)
    ensures Digits(Decimal(n)) && Value(Decimal(n)) == n
  {
    if n < 10 {
      assert [Digit(n)][..0] == "";
    } else {
      DecimalValue(n / 10);
      assert Decimal(n)[..|Decimal(n)| - 1] == Decimal(n / 10);
    }
  }

  lemma {:induction false} LeadingZero(s: string)
    requires Digits(s)
    ensures Value("0" + s) == Value(s)
    decreases |s|
  {
    if s == "" {
      assert "0" + s == "0" && "0"[..0] == "";
    } else {
      LeadingZero(s[..|s| - 1]);
      assert ("0" + s)[..|s|] == "0" + s[..|s| - 1];
    }
  }

  lemma {:induction false} PaddingValue(s: string, width: nat)
    requires Digits(s)
    ensures Digits(PadStart(s, width)) && Value(PadStart(s, width)) == Value(s)
    decreases width - |s|
  {
    if |s| < width {
      LeadingZero(s);
      PaddingValue("0" + s, width);
    }
  }

  /** Two archive paths are equal only for the same number and the same title. */
  lemma NamesDistinct(title: string, index: nat, title': string, index': nat)
    requires EntryName(title, index) == EntryName(title', index')
    ensures index == index' && title == title'
  {
    DecimalValue(index);
    DecimalValue(index');
    PaddingValue(Decimal(index), 4);
    PaddingValue(Decimal(index'), 4);
    var a, b := PadStart(Decimal(index), 4), PadStart(Decimal(index'), 4);
    assert EntryName(title, index)[7..] == a + ['_'] + (title + ".eml");
    assert EntryName(title', index')[7..] == b + ['_'] + (title' + ".eml");
    SplitUnique(a, title + ".eml", b, title' + ".eml", '_');
    assert (title + ".eml")[..|title|] == (title' + ".eml")[..|title'|];
  }

  // ----- The run -----

  datatype Numbered = Numbered(row: Row, index: nat)
  datatype Entry = Entry(path: string, source: Source)
  datatype OpenFolder = OpenFolder(key: FolderKey, locked: bool, failure: Option<MailError>)

  /** One batched FETCH: the folder whose lock it ran under, what it asked for and what came back. */
  datatype Fetched = Fetched(folder: FolderKey, uids: seq<int>, sources: map<int, Source>, fault: Option<MailError>)

  /** How the receiver takes an entry. */
  datatype Answer = Taken | TransferClosed | EmitFailed(error: MailError)
  datatype Step = Next | Stop | Abort
  datatype Flush = Flushed | Closed | Broke(error: MailError)

  function Rows(entries: seq<Numbered>): seq<Row> {
    seq(|entries|, i requires 0 <= i < |entries| => entries[i].row)
  }

  lemma RowsConcat(a: seq<Numbered>, b: seq<Numbered>)
    ensures Rows(a + b) == Rows(a) + Rows(b)
  {
  }

  function LiveRows(accounts: set<AccountId>): Row -> bool {
    (r: Row) => r.account in accounts
  }

  function AccountsOf(rows: seq<Row>): set<AccountId> {
    set r <- rows :: r.account
  }

  lemma Nothing(rows: seq<Row>, p: Row -> bool)
    ensures Filter(rows[..0], p) == [] && AccountsOf(rows[..0]) == {}
  {
  }

  lemma AccountsJoin(rows: seq<Row>, k: nat, n: nat)
    requires k + n <= |rows|
    ensures AccountsOf(rows[..k]) + AccountsOf(rows[k..k + n]) == AccountsOf(rows[..k + n])
  {
    assert rows[..k] + rows[k..k + n] == rows[..k + n];
  }

  /** A provider response for this row's own folder and UID. */
  ghost predicate Streamed(fetches: set<Fetched>, r: Row, source: Source) {
    exists f <- fetches :: f.folder == FolderOf(r) && r.uid in f.uids && r.uid in f.sources
        && f.sources[r.uid] == source
  }

  ghost predicate Unanswered(fetches: set<Fetched>, r: Row) {
    exists f <- fetches :: f.folder == FolderOf(r) && r.uid in f.uids && r.uid !in f.sources && f.fault.None?
  }

  /** A reported reason comes from the row itself or from its own folder. */
  ghost predicate Justified(fetches: set<Fetched>, faults: set<(FolderKey, MailError)>, r: Row, reason: Reason) {
    match reason
    case Blocked(move) => MoveBlockOf(r) == Some(move)
    case Gone => Unanswered(fetches, r)
    case Fault(error) => (FolderOf(r), error) in faults
  }

  ghost predicate ArchiveHolds(archive: seq<Entry>, emitted: seq<Numbered>, fetches: set<Fetched>) {
    && |archive| == |emitted|
    && (forall i | 0 <= i < |emitted| ::
          archive[i].path == EntryName(emitted[i].row.title, emitted[i].index)
          && Streamed(fetches, emitted[i].row, archive[i].source))
  }

  ghost predicate ReportHolds(failed: seq<Failure>, refused: seq<Row>, fetches: set<Fetched>,
                              faults: set<(FolderKey, MailError)>) {
    && |failed| == |refused|
    && (forall i | 0 <= i < |failed| ::
          failed[i].messageId == refused[i].id && Justified(fetches, faults, refused[i], failed[i].reason))
  }

  /** More commands and more causes never spoil what is already booked. */
  lemma BooksGrow(archive: seq<Entry>, emitted: seq<Numbered>, failed: seq<Failure>, refused: seq<Row>,
                  fetches: set<Fetched>, faults: set<(FolderKey, MailError)>,
                  fetches': set<Fetched>, faults': set<(FolderKey, MailError)>)
    requires fetches <= fetches' && faults <= faults'
    ensures ArchiveHolds(archive, emitted, fetches) ==> ArchiveHolds(archive, emitted, fetches')
    ensures ReportHolds(failed, refused, fetches, faults) ==> ReportHolds(failed, refused, fetches', faults')
  {
  }

  /** Each row walked is delivered, refused or still in hand, exactly once. */
  ghost predicate Booked(emitted: seq<Numbered>, refused: seq<Row>, inHand: seq<Numbered>, walked: seq<Row>) {
    multiset(Rows(emitted)) + multiset(refused) + multiset(Rows(inHand)) == multiset(walked)
  }

  /** The number of an entry is the position of its row among those walked. */
  ghost predicate Numbers(entries: seq<Numbered>, walked: seq<Row>) {
    forall e <- entries :: 1 <= e.index <= |walked| && walked[e.index - 1] == e.row && MoveBlockOf(e.row).None?
  }

  ghost predicate Bounded(fetches: set<Fetched>, walked: seq<Row>) {
    forall f <- fetches ::
      && 0 < |f.uids| <= CHUNK_SIZE
      && (forall u <- f.uids :: exists r <- walked :: FolderOf(r) == f.folder && r.uid == u)
  }

  /** Folders are opened once each, in order, and only for rows that lie in them. */
  ghost predicate Visits(visited: seq<FolderKey>, walked: seq<Row>) {
    && Ascending(visited, FolderBefore)
    && (forall r <- walked :: FolderOf(r) in visited)
    && (forall k <- visited :: exists r <- walked :: FolderOf(r) == k)
  }

  function VisitedNext(visited: seq<FolderKey>, k: FolderKey): seq<FolderKey> {
    if visited != [] && visited[|visited| - 1] == k then visited else visited + [k]
  }

  lemma VisitsGrow(visited: seq<FolderKey>, walked: seq<Row>, r: Row)
    requires Visits(visited, walked)
    requires visited == [] <==> walked == []
    requires walked != [] ==>
               FolderOf(walked[|walked| - 1]) == visited[|visited| - 1] && RowBefore(walked[|walked| - 1], r)
    ensures Visits(VisitedNext(visited, FolderOf(r)), walked + [r])
  {
    FolderBeforeIsStrict();
    hide Less;
    var next := VisitedNext(visited, FolderOf(r));
    var rows := walked + [r];
    assert rows[|walked|] == r && next[|next| - 1] == FolderOf(r);
    forall x <- rows ensures FolderOf(x) in next {
      assert x in walked || x == r;
    }
    forall k <- next ensures exists x <- rows :: FolderOf(x) == k {
      if k == FolderOf(r) {
        assert r in rows;
      } else {
        var x :| x in walked && FolderOf(x) == k;
        assert x in rows;
      }
    }
  }

  lemma WalkGrows(entries: seq<Numbered>, fetches: set<Fetched>, walked: seq<Row>, r: Row)
    ensures Numbers(entries, walked) ==> Numbers(entries, walked + [r])
    ensures Bounded(fetches, walked) ==> Bounded(fetches, walked + [r])
  {
  }

  lemma OwnNumber(walked: seq<Row>, index: nat)
    requires 1 <= index <= |walked| && MoveBlockOf(walked[index - 1]).None?
    ensures Numbers([Numbered(walked[index - 1], index)], walked)
  {
  }

  lemma BookNew(emitted: seq<Numbered>, refused: seq<Row>, inHand: seq<Numbered>, walked: seq<Row>, n: Numbered)
    requires Booked(emitted, refused, inHand, walked)
    ensures Booked(emitted, refused + [n.row], inHand, walked + [n.row])
    ensures Booked(emitted, refused, inHand + [n], walked + [n.row])
  {
    RowsConcat(inHand, [n]);
    assert Rows([n]) == [n.row];
  }

  lemma BookOne(emitted: seq<Numbered>, refused: seq<Row>, chunk: seq<Numbered>, i: nat, walked: seq<Row>)
    requires i < |chunk| && Booked(emitted, refused, chunk[i..], walked)
    ensures Booked(emitted + [chunk[i]], refused, chunk[i + 1..], walked)
    ensures Booked(emitted, refused + [chunk[i].row], chunk[i + 1..], walked)
  {
    RowsConcat(emitted, [chunk[i]]);
    RowsConcat([chunk[i]], chunk[i + 1..]);
    assert chunk[i..] == [chunk[i]] + chunk[i + 1..];
    assert Rows([chunk[i]]) == [chunk[i].row];
  }

  ghost predicate AtMostOnce(emitted: seq<Numbered>, refused: seq<Row>, walked: seq<Row>) {
    multiset(Rows(emitted)) + multiset(refused) <= multiset(walked)
  }

  lemma BookedIsShort(emitted: seq<Numbered>, refused: seq<Row>, inHand: seq<Numbered>, walked: seq<Row>)
    requires Booked(emitted, refused, inHand, walked)
    ensures AtMostOnce(emitted, refused, walked)
  {
  }

  /** The live rows of the walk, as its next row is met. */
  lemma NextOfWalk(walk: seq<Row>, k: nat, accounts: set<AccountId>)
    requires Ascending(walk, RowBefore) && k < |walk|
    ensures var live := LiveRows(accounts);
            var kept, next := Filter(walk[..k], live), Filter(walk[..k + 1], live);
            && next == kept + (if walk[k].account in accounts then [walk[k]] else [])
            && kept <= Filter(walk, live) && next <= Filter(walk, live)
            && (kept != [] ==> RowBefore(kept[|kept| - 1], walk[k]))
  {
    var live := LiveRows(accounts);
    FilterPrefix(walk, k, live);
    FilterStart(walk, k, live);
    FilterStart(walk, k + 1, live);
    NextComesLater(walk, k, live, RowBefore);
  }

  class MailBackup {
    const table: set<Row>
    const accounts: set<AccountId>

    var messageCount: nat
    var seenAccounts: set<AccountId>
    var exported: nat
    var failed: seq<Failure>
    var index: nat
    var folder: Option<OpenFolder>
    var pending: seq<Numbered>
    var transferClosed: bool
    var accountErrors: map<AccountId, MailError>
    var archive: seq<Entry>

    /** What happened: rows reached, entries delivered, rows reported failed, commands and causes. */
    ghost var walked: seq<Row>
    ghost var emitted: seq<Numbered>
    ghost var refused: seq<Row>
    ghost var fetches: set<Fetched>
    ghost var faults: set<(FolderKey, MailError)>
    ghost var visited: seq<FolderKey>

    constructor (table: set<Row>, accounts: set<AccountId>)
      ensures this.table == table && this.accounts == accounts
      ensures Ledger() && Current() && Balanced() && !transferClosed
      ensures walked == [] && messageCount == 0 && seenAccounts == {}
    {
      this.table, this.accounts := table, accounts;
      messageCount, seenAccounts, exported, failed, index := 0, {}, 0, [], 0;
      folder, pending, transferClosed, accountErrors, archive := None, [], false, map[], [];
      walked, emitted, refused, fetches, faults, visited := [], [], [], {}, {}, [];
    }

    /** Every row that reached a folder is delivered, reported or waiting, exactly once. */
    ghost predicate Balanced()
      reads `emitted, `refused, `pending, `walked
    {
      Booked(emitted, refused, pending, walked)
    }

    /** After the transfer closed some rows were never attempted, but none is counted twice. */
    ghost predicate Short()
      reads `emitted, `refused, `walked
    {
      AtMostOnce(emitted, refused, walked)
    }

    ghost predicate ArchiveMatches()
      reads `archive, `emitted, `exported, `fetches
    {
      exported == |archive| && ArchiveHolds(archive, emitted, fetches)
    }

    ghost predicate ReportMatches()
      reads `failed, `refused, `fetches, `faults
    {
      ReportHolds(failed, refused, fetches, faults)
    }

    ghost predicate FetchesBounded()
      reads `fetches, `walked
    {
      Bounded(fetches, walked)
    }

    /** The books, whatever folder is open. */
    ghost predicate Ledger()
      reads `index, `walked, `emitted, `pending, `archive, `exported, `fetches, `failed, `refused, `faults
    {
      && index == |walked|
      && Numbers(emitted, walked) && Numbers(pending, walked)
      && ArchiveMatches() && ReportMatches() && FetchesBounded()
    }

    ghost predicate PendingIn(f: OpenFolder)
      reads `pending
    {
      pending != [] ==> f.locked && f.failure.None? && forall p <- pending :: FolderOf(p.row) == f.key
    }

    /** The open folder is the last one visited, and the last of `rows` lies in it. */
    ghost predicate OpenFor(rows: seq<Row>)
      reads `folder, `pending, `visited, `faults
    {
      && folder.Some?
      && var f := folder.value;
         && PendingIn(f)
         && (if f.failure.None? then f.locked else (f.key, f.failure.value) in faults)
         && visited != [] && visited[|visited| - 1] == f.key
         && rows != [] && FolderOf(rows[|rows| - 1]) == f.key
    }

    ghost predicate Current()
      reads `folder, `pending, `visited, `faults, `walked
    {
      && |pending| < CHUNK_SIZE
      && Visits(visited, walked)
      && if folder.None? then visited == [] && walked == [] && pending == [] else OpenFor(walked)
    }

    method Fetch(target: OpenFolder, chunk: seq<Numbered>)
      returns (sources: map<int, Source>, fault: Option<MailError>)
      requires target.locked && 0 < |chunk| <= CHUNK_SIZE
      modifies `fetches, `faults
      ensures var asked := seq(|chunk|, i requires 0 <= i < |chunk| => chunk[i].row.uid);
              fetches == old(fetches) + {Fetched(target.key, asked, sources, fault)}
      ensures faults == old(faults) + if fault.Some? then {(target.key, fault.value)} else {}
    {
      sources := *;
      fault := *;
      ghost var asked := seq(|chunk|, i requires 0 <= i < |chunk| => chunk[i].row.uid);
      fetches := fetches + {Fetched(target.key, asked, sources, fault)};
      if fault.Some? {
        faults := faults + {(target.key, fault.value)};
      }
    }

    method Emit(entry: Entry) returns (answer: Answer)
      modifies `archive
      ensures archive == old(archive) + if answer.Taken? then [entry] else []
    {
      answer := *;
      if answer.Taken? {
        archive := archive + [entry];
      }
    }

    method FailFolder(error: MailError)
      requires folder.Some?
      modifies `folder, `accountErrors, `faults
      ensures folder == Some(old(folder.value).(failure := Some(error)))
      ensures accountErrors == old(accountErrors)[folder.value.key.0 := error]
      ensures faults == old(faults) + {(folder.value.key, error)}
    {
      var f := folder.value;
      accountErrors := accountErrors[f.key.0 := error];
      folder := Some(f.(failure := Some(error)));
      faults := faults + {(f.key, error)};
    }

    method Report(r: Row, reason: Reason)
      requires ReportMatches() && Justified(fetches, faults, r, reason)
      modifies `failed, `refused
      ensures ReportMatches() && refused == old(refused) + [r]
    {
      failed := failed + [Failure(r.id, reason)];
      refused := refused + [r];
    }

    method Deliver(entry: Numbered, source: Source) returns (answer: Answer)
      requires ArchiveMatches() && Streamed(fetches, entry.row, source)
      modifies `archive, `exported, `emitted
      ensures ArchiveMatches()
      ensures emitted == if answer.Taken? then old(emitted) + [entry] else old(emitted)
    {
      answer := Emit(Entry(EntryName(entry.row.title, entry.index), source));
      if answer.Taken? {
        emitted := emitted + [entry];
        exported := exported + 1;
      }
    }

    /** What one response settles for a row it was asked about. */
    ghost predicate Answered(e: Numbered, sources: map<int, Source>, fault: Option<MailError>)
      reads `fetches, `faults
    {
      if e.row.uid in sources then Streamed(fetches, e.row, sources[e.row.uid])
      else Justified(fetches, faults, e.row, if fault.Some? then Fault(fault.value) else Gone)
    }

    method FetchChunk(target: OpenFolder, chunk: seq<Numbered>)
      returns (sources: map<int, Source>, fault: Option<MailError>)
      requires Ledger() && target.locked && 0 < |chunk| <= CHUNK_SIZE
      requires Numbers(chunk, walked) && forall e <- chunk :: FolderOf(e.row) == target.key
      modifies `fetches, `faults
      ensures Ledger() && old(faults) <= faults
      ensures forall e <- chunk :: Answered(e, sources, fault)
    {
      ghost var before, causes := fetches, faults;
      sources, fault := Fetch(target, chunk);
      BooksGrow(archive, emitted, failed, refused, before, causes, fetches, faults);
      ghost var asked := seq(|chunk|, i requires 0 <= i < |chunk| => chunk[i].row.uid);
      ghost var f := Fetched(target.key, asked, sources, fault);
      forall e <- chunk
        ensures e.row.uid in asked && Answered(e, sources, fault)
      {
        var i :| 0 <= i < |chunk| && chunk[i] == e;
        assert asked[i] == e.row.uid && f in fetches;
      }
      forall u <- asked
        ensures exists r <- walked :: FolderOf(r) == target.key && r.uid == u
      {
        var i :| 0 <= i < |asked| && asked[i] == u;
        assert chunk[i] in chunk;
        assert walked[chunk[i].index - 1] in walked;
      }
    }

    method RefuseAll(tail: seq<Numbered>, key: FolderKey, error: MailError)
      requires ReportMatches() && Booked(emitted, refused, tail, walked)
      requires forall e <- tail :: FolderOf(e.row) == key
      modifies `failed, `refused, `faults
      ensures ReportMatches() && Booked(emitted, refused, [], walked) && faults == old(faults) + {(key, error)}
    {

      ghost var causes := faults;
      faults := faults + {(key, error)};
      BooksGrow(archive, emitted, failed, refused, fetches, causes, fetches, faults);
      assert tail[0..] == tail;
      for i := 0 to |tail|
        invariant ReportMatches() && Booked(emitted, refused, tail[i..], walked)
        invariant faults == old(faults) + {(key, error)}
      {
        BookOne(emitted, refused, tail, i, walked);
        Report(tail[i].row, Fault(error));
      }
    }

    /** One entry of the chunk: deliver it, report it, or stop on the receiver's answer. */
    method Settle(chunk: seq<Numbered>, position: nat, target: OpenFolder,
                  sources: map<int, Source>, fault: Option<MailError>)
      returns (answer: Answer)
      requires position < |chunk| && Booked(emitted, refused, chunk[position..], walked)
      requires ArchiveMatches() && ReportMatches() && Numbers(emitted, walked) && Numbers(chunk, walked)
      requires Answered(chunk[position], sources, fault)
      requires forall e <- chunk :: FolderOf(e.row) == target.key
      modifies `archive, `exported, `failed, `emitted, `refused, `faults
      ensures ArchiveMatches() && ReportMatches() && Numbers(emitted, walked) && old(faults) <= faults
      ensures match answer
              case Taken => Booked(emitted, refused, chunk[position + 1..], walked)
              case TransferClosed => Short()
              case EmitFailed(error) => Booked(emitted, refused, [], walked) && (target.key, error) in faults
    {
      hide Booked, AtMostOnce, ArchiveHolds, ReportHolds;
      var entry := chunk[position];
      BookOne(emitted, refused, chunk, position, walked);
      BookedIsShort(emitted, refused, chunk[position..], walked);
      if entry.row.uid in sources {
        answer := Deliver(entry, sources[entry.row.uid]);
        if answer.EmitFailed? {
          RefuseAll(chunk[position..], target.key, answer.error);
        }
      } else {
        Report(entry.row, if fault.Some? then Fault(fault.value) else Gone);
        answer := Taken;
      }
    }

    method SettleAll(chunk: seq<Numbered>, target: OpenFolder, sources: map<int, Source>, fault: Option<MailError>)
      returns (outcome: Flush)
      requires Booked(emitted, refused, chunk, walked)
      requires ArchiveMatches() && ReportMatches() && Numbers(emitted, walked) && Numbers(chunk, walked)
      requires forall e <- chunk :: FolderOf(e.row) == target.key && Answered(e, sources, fault)
      modifies `archive, `exported, `failed, `emitted, `refused, `faults
      ensures ArchiveMatches() && ReportMatches() && Numbers(emitted, walked) && old(faults) <= faults
      ensures if outcome.Closed? then Short() else Booked(emitted, refused, [], walked)
      ensures outcome.Broke? ==> (target.key, outcome.error) in faults
    {
      hide Booked, AtMostOnce, ArchiveHolds, ReportHolds, Numbers;
      assert chunk[0..] == chunk && chunk[|chunk|..] == [];
      for position := 0 to |chunk|
        invariant ArchiveMatches() && ReportMatches() && Numbers(emitted, walked) && old(faults) <= faults
        invariant Booked(emitted, refused, chunk[position..], walked)
        invariant forall e <- chunk :: Answered(e, sources, fault)
      {
        var answer := Settle(chunk, position, target, sources, fault);
        match answer
        case Taken =>
        case TransferClosed => return Closed;
        case EmitFailed(error) => return Broke(error);
      }
      outcome := Flushed;
    }

    method FlushPending(target: OpenFolder) returns (outcome: Flush)
      requires Ledger() && PendingIn(target) && |pending| <= CHUNK_SIZE
      requires pending != [] ==> Balanced()
      modifies `pending, `archive, `exported, `failed, `emitted, `refused, `fetches, `faults
      ensures Ledger() && pending == [] && old(faults) <= faults
      ensures |old(pending)| == 0 ==> outcome.Flushed? && emitted == old(emitted) && refused == old(refused)
      ensures |old(pending)| > 0 ==> if outcome.Closed? then Short() else Balanced()
      ensures outcome.Broke? ==> (target.key, outcome.error) in faults
    {
      if |pending| == 0 {
        return Flushed;
      }
      var chunk := pending;
      pending := [];
      var sources, fault := FetchChunk(target, chunk);
      outcome := SettleAll(chunk, target, sources, fault);
    }

    method BlockFolder(error: MailError)
      requires Ledger() && folder.Some?
      modifies `folder, `accountErrors, `faults
      ensures folder == Some(old(folder.value).(failure := Some(error)))
      ensures Ledger() && old(faults) <= faults && (folder.value.key, error) in faults
    {
      ghost var causes := faults;
      FailFolder(error);
      BooksGrow(archive, emitted, failed, refused, fetches, causes, fetches, faults);
    }

    /** A flush and what its outcome does: nothing, the end of the walk, or a blocked folder. */
    method Drain()
      requires Ledger() && folder.Some? && PendingIn(folder.value) && |pending| <= CHUNK_SIZE
      requires folder.value.failure.None? && !(transferClosed && pending != [])
      requires if transferClosed then Short() else Balanced()
      modifies `pending, `archive, `exported, `failed, `emitted, `refused, `fetches, `faults,
               `folder, `transferClosed, `accountErrors
      ensures Ledger() && pending == [] && old(faults) <= faults
      ensures if transferClosed then Short() && accountErrors == old(accountErrors) else Balanced()
      ensures old(transferClosed) ==> transferClosed
      ensures folder.Some? && folder.value == old(folder.value).(failure := folder.value.failure)
      ensures folder.value.failure.Some? ==> (folder.value.key, folder.value.failure.value) in faults
    {
      hide Booked, AtMostOnce, ArchiveHolds, ReportHolds, Bounded, Numbers;
      var outcome := FlushPending(folder.value);
      match outcome
      case Flushed =>
      case Closed => transferClosed := true;
      case Broke(error) => BlockFolder(error);
    }

    method CloseFolder()
      requires Ledger() && |pending| < CHUNK_SIZE
      requires if folder.Some? then PendingIn(folder.value) else pending == []
      requires if transferClosed then pending == [] && Short() else Balanced()
      modifies `pending, `archive, `exported, `failed, `emitted, `refused, `fetches, `faults,
               `folder, `transferClosed, `accountErrors
      ensures Ledger() && pending == [] && old(faults) <= faults
      ensures folder.Some? ==> !folder.value.locked
      ensures if transferClosed then Short() && accountErrors == old(accountErrors) else Balanced()
      ensures old(transferClosed) ==> transferClosed
    {
      hide Booked, AtMostOnce, ArchiveHolds, ReportHolds, Bounded, Numbers;
      if folder.None? {
        return;
      }
      if folder.value.failure.None? {
        Drain();
      }
      pending := [];
      folder := Some(folder.value.(locked := false));
    }

    /** A connection for the row's folder; the client itself may fail to come up, which ends the run. */
    method OpenFolderOf(r: Row) returns (threw: bool)
      requires Ledger() && pending == []
      modifies `folder, `accountErrors, `faults, `visited
      ensures Ledger() && old(faults) <= faults
      ensures !threw ==> visited == old(visited) + [FolderOf(r)] && OpenFor([r])
      ensures threw ==> visited == old(visited) && folder == old(folder)
    {
      threw := *;
      if threw {
        return;
      }
      visited := visited + [FolderOf(r)];
      var locked: bool := *;
      folder := Some(OpenFolder(FolderOf(r), locked, None));
      if !locked {
        var error: MailError := *;
        BlockFolder(error);
      }
    }

    /** Makes the row's folder the open one, settling and closing the previous one first. */
    method EnterFolder(r: Row) returns (step: Step)
      requires Ledger() && Current() && Balanced() && !transferClosed
      requires walked != [] ==> RowBefore(walked[|walked| - 1], r)
      modifies this
      ensures Ledger() && walked == old(walked) && old(faults) <= faults
      ensures messageCount == old(messageCount) && seenAccounts == old(seenAccounts)
      ensures match step
              case Next => !transferClosed && Balanced() && |pending| < CHUNK_SIZE
                           && Visits(visited, walked + [r]) && OpenFor(walked + [r])
              case Stop => transferClosed && Short() && pending == [] && accountErrors == old(accountErrors)
                           && (folder.Some? ==> !folder.value.locked) && Visits(visited, walked)
              case Abort => !transferClosed && Balanced() && pending == [] && (folder.Some? ==> !folder.value.locked)
                            && Visits(visited, walked)
    {
      hide Booked, AtMostOnce, ArchiveHolds, ReportHolds, Bounded, Numbers;
      VisitsGrow(visited, walked, r);
      if folder.None? || folder.value.key != FolderOf(r) {
        CloseFolder();
        if transferClosed {
          return Stop;
        }
        var threw := OpenFolderOf(r);
        if threw {
          return Abort;
        }
      }
      step := Next;
    }

    /** The row waits for its chunk, which is settled once it is full. */
    method Queue(n: Numbered)
      requires Ledger() && Booked(emitted, refused, pending + [n], walked) && |pending| < CHUNK_SIZE && !transferClosed
      requires Numbers([n], walked) && Visits(visited, walked) && OpenFor(walked)
      requires folder.value.failure.None? && FolderOf(n.row) == folder.value.key
      modifies `pending, `archive, `exported, `failed, `emitted, `refused, `fetches, `faults,
               `folder, `transferClosed, `accountErrors
      ensures Ledger()
      ensures if transferClosed then Short() && pending == [] && accountErrors == old(accountErrors)
              else Balanced() && Current()
      ensures folder.Some? && |pending| < CHUNK_SIZE && PendingIn(folder.value)
    {
      hide Booked, AtMostOnce, ArchiveHolds, ReportHolds, Bounded, Visits;
      pending := pending + [n];
      if |pending| == CHUNK_SIZE {
        Drain();
      }
    }

    /** The row becomes the last one walked; it is neither reported nor waiting yet. */
    method TakeNumber(r: Row)
      requires Ledger() && Balanced()
      modifies `index, `walked
      ensures Ledger() && walked == old(walked) + [r]
      ensures Booked(emitted, refused + [r], pending, walked)
      ensures Booked(emitted, refused, pending + [Numbered(r, index)], walked)
    {
      hide Booked, ArchiveHolds, ReportHolds, Bounded, Numbers;
      WalkGrows(emitted, fetches, walked, r);
      WalkGrows(pending, fetches, walked, r);
      BookNew(emitted, refused, pending, walked, Numbered(r, index + 1));
      index := index + 1;
      walked := walked + [r];
    }

    /** The row takes its number and is reported, or waits for its chunk. */
    method BookRow(r: Row)
      requires Ledger() && Balanced() && |pending| < CHUNK_SIZE && !transferClosed
      requires Visits(visited, walked + [r]) && OpenFor(walked + [r])
      modifies this
      ensures Ledger() && walked == old(walked) + [r] && Visits(visited, walked)
      ensures messageCount == old(messageCount) && seenAccounts == old(seenAccounts)
      ensures if transferClosed then Short() && pending == [] && accountErrors == old(accountErrors)
              else Balanced() && Current()
      ensures folder.Some? && |pending| < CHUNK_SIZE && PendingIn(folder.value)
    {
      hide Booked, AtMostOnce, ArchiveHolds, ReportHolds, Bounded, Visits, Numbers;
      TakeNumber(r);
      if folder.value.failure.Some? {
        Report(r, Fault(folder.value.failure.value));
        return;
      }
      var blocked := MoveBlockOf(r);
      if blocked.Some? {
        Report(r, Blocked(blocked.value));
      } else {
        OwnNumber(walked, index);
        Queue(Numbered(r, index));
      }
    }

    /** Between two rows: everything accounted for, the transfer open. */
    ghost predicate Running()
      reads this
    {
      Ledger() && Current() && Balanced() && !transferClosed
    }

    /** The transfer closed, or a client could not be made: what was walked is part of `live`. */
    ghost predicate Halted(step: Step, live: seq<Row>)
      reads this
    {
      && Ledger() && pending == [] && Visits(visited, walked) && walked <= live
      && (if transferClosed then step.Stop? && Short()
          else step.Abort? && Balanced() && (folder.Some? ==> !folder.value.locked))
    }

    /** A row whose account still exists. */
    method VisitLive(r: Row, ghost live: seq<Row>) returns (step: Step)
      requires Running() && (walked != [] ==> RowBefore(walked[|walked| - 1], r))
      requires walked <= live && walked + [r] <= live
      modifies this
      ensures messageCount == old(messageCount) && seenAccounts == old(seenAccounts)
      ensures if step.Next? then Running() && walked == old(walked) + [r] else Halted(step, live)
    {
      hide Booked, AtMostOnce, ArchiveHolds, ReportHolds, Bounded, Visits;
      step := EnterFolder(r);
      if step.Next? {
        BookRow(r);
        if transferClosed {
          step := Stop;
        }
      }
    }

    method Count(r: Row)
      requires Running()
      modifies `messageCount, `seenAccounts
      ensures Running() && messageCount == old(messageCount) + 1 && seenAccounts == old(seenAccounts) + {r.account}
    {
      messageCount := messageCount + 1;
      seenAccounts := seenAccounts + {r.account};
    }

    /** Any row; `walk` is the whole walk and `r` its element `k`. */
    method VisitRow(r: Row, ghost walk: seq<Row>, ghost k: nat) returns (step: Step)
      requires Running() && Ascending(walk, RowBefore) && k < |walk| && walk[k] == r
      requires walked == Filter(walk[..k], LiveRows(accounts))
      modifies this
      ensures if step.Next?
              then Running() && walked == Filter(walk[..k + 1], LiveRows(accounts))
                   && messageCount == old(messageCount) + 1 && seenAccounts == old(seenAccounts) + {r.account}
              else Halted(step, Filter(walk, LiveRows(accounts)))
    {
      hide *;
      NextOfWalk(walk, k, accounts);
      Count(r);
      step := Next;
      if r.account in accounts {
        step := VisitLive(r, Filter(walk, LiveRows(accounts)));
      }
    }

    /** The rows of one page, in turn: the part of the walk from `k` on. */
    method VisitPage(page: seq<Row>, ghost walk: seq<Row>, ghost k: nat) returns (step: Step)
      requires Running() && Ascending(walk, RowBefore) && k + |page| <= |walk| && page == walk[k..k + |page|]
      requires walked == Filter(walk[..k], LiveRows(accounts))
      modifies this
      ensures if step.Next?
              then Running() && walked == Filter(walk[..k + |page|], LiveRows(accounts))
                   && messageCount == old(messageCount) + |page|
                   && seenAccounts == old(seenAccounts) + AccountsOf(page)
              else Halted(step, Filter(walk, LiveRows(accounts)))
    {
      hide Running, Halted, Filter, LiveRows;
      for i := 0 to |page|
        invariant Running() && walked == Filter(walk[..k + i], LiveRows(accounts))
        invariant messageCount == old(messageCount) + i
        invariant seenAccounts == old(seenAccounts) + AccountsOf(page[..i])
      {
        assert page[..i + 1] == page[..i] + [page[i]];
        step := VisitRow(page[i], walk, k + i);
        if !step.Next? {
          return;
        }
      }
      assert page[..|page|] == page;
      step := Next;
    }

    /** Page after page, each resuming after the last row of the one before. */
    method WalkPages() returns (step: Step)
      requires Keyed(table) && Running() && walked == [] && messageCount == 0 && seenAccounts == {}
      modifies this
      ensures if step.Next?
              then Running() && walked == Filter(Walk(table), LiveRows(accounts))
                   && messageCount == |Walk(table)| && seenAccounts == AccountsOf(Walk(table))
              else Halted(step, Filter(Walk(table), LiveRows(accounts)))
    {
      hide *;
      ghost var walk := Walk(table);
      ghost var k := 0;
      Nothing(walk, LiveRows(accounts));
      var cursor: Option<Position> := None;
      while true
        invariant k <= |walk| && Running() && walked == Filter(walk[..k], LiveRows(accounts))
        invariant if k == 0 then cursor.None? else cursor == Some(PositionOf(walk[k - 1]))
        invariant messageCount == k && seenAccounts == AccountsOf(walk[..k])
        decreases |walk| - k
      {
        var page := PageAfter(table, cursor);
        PageContinues(table, cursor, k);
        if |page| == 0 {
          break;
        }
        step := VisitPage(page, walk, k);
        if !step.Next? {
          return;
        }
        AccountsJoin(walk, k, |page|);
        k := k + |page|;
        cursor := Some(PositionOf(page[|page| - 1]));
      }
      assert walk[..|walk|] == walk;
      step := Next;
    }

    /** The whole backup. It runs to its end, or the transfer closes, or a client cannot be made. */
    method Collect() returns (step: Step)
      requires Keyed(table) && Running() && walked == [] && messageCount == 0 && seenAccounts == {}
      modifies this
      ensures Ledger() && pending == [] && Visits(visited, walked) && (folder.Some? ==> !folder.value.locked)
      ensures step.Abort? ==> !transferClosed
      ensures var live := Filter(Walk(table), LiveRows(accounts));
              if step.Next? && !transferClosed
              then walked == live && Balanced() && messageCount == |Walk(table)|
                   && seenAccounts == AccountsOf(Walk(table))
              else walked <= live && Short()
    {
      hide Booked, AtMostOnce, ArchiveHolds, ReportHolds, Bounded, Visits, Walk, Filter, LiveRows, AccountsOf;
      step := WalkPages();
      if step.Abort? {
        BookedIsShort(emitted, refused, pending, walked);
      } else {
        CloseFolder();
        step := Next;
      }
    }
  }

  // ----- What a finished run means -----

  lemma WalkedOnce(table: set<Row>, accounts: set<AccountId>, r: Row)
    requires Keyed(table)
    ensures multiset(Filter(Walk(table), LiveRows(accounts)))[r] == if r in table && r.account in accounts then 1 else 0
  {
    var walk, live := Walk(table), LiveRows(accounts);
    WalkOrderIsTotal(table);
    hide Keyed, Walk, Before, RowBefore;
    FilterMembers(walk, live);
    FilterAscends(walk, live, RowBefore);
    AscendingOnce(Filter(walk, live), r, RowBefore);
  }

  lemma DeliveredOnce(emitted: seq<Numbered>, refused: seq<Row>, walked: seq<Row>, i: nat, j: nat)
    requires Booked(emitted, refused, [], walked) && Numbers(emitted, walked) && i < j < |emitted|
    requires multiset(walked)[emitted[i].row] <= 1
    ensures EntryName(emitted[i].row.title, emitted[i].index) != EntryName(emitted[j].row.title, emitted[j].index)
  {
    var a, b := emitted[i], emitted[j];
    TwoPlaces(Rows(emitted), i, j);
    assert Rows(emitted)[i] == a.row && Rows(emitted)[j] == b.row;
    assert a in emitted && b in emitted;
    if EntryName(a.row.title, a.index) == EntryName(b.row.title, b.index) {
      NamesDistinct(a.row.title, a.index, b.row.title, b.index);
    }
  }

  /** A run that neither closes nor aborts: every row whose account exists is delivered or reported
      failed, once and not both, and no other row is either; the archive names are all different. */
  lemma EveryRowOnce(table: set<Row>, accounts: set<AccountId>, emitted: seq<Numbered>, refused: seq<Row>)
    requires Keyed(table)
    requires var walked := Filter(Walk(table), LiveRows(accounts));
             Booked(emitted, refused, [], walked) && Numbers(emitted, walked)
    ensures forall r :: multiset(Rows(emitted))[r] + multiset(refused)[r]
                        == if r in table && r.account in accounts then 1 else 0
    ensures forall i, j | 0 <= i < j < |emitted| ::
              EntryName(emitted[i].row.title, emitted[i].index) != EntryName(emitted[j].row.title, emitted[j].index)
  {
    hide Numbers, EntryName;
    var walked := Filter(Walk(table), LiveRows(accounts));
    forall r
      ensures multiset(Rows(emitted))[r] + multiset(refused)[r] == if r in table && r.account in accounts then 1 else 0
    {
      WalkedOnce(table, accounts, r);
      assert Rows([]) == [];
    }
    forall i, j | 0 <= i < j < |emitted|
      ensures EntryName(emitted[i].row.title, emitted[i].index) != EntryName(emitted[j].row.title, emitted[j].index)
    {
      WalkedOnce(table, accounts, emitted[i].row);
      DeliveredOnce(emitted, refused, walked, i, j);
    }
  }
}
