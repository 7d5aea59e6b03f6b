/** The sidebar's counts (folder-counts.ts) against the lists they label (message-filters.ts), at one
    instant. Instants are ISO-8601 UTC texts; an empty text stands for a query parameter that is absent. */
module Badges {
  import opened Keyset
  import opened Optional
  import opened TextOrder

  datatype Folder = Folder(account: string, path: string, specialUse: Option<string>)
  datatype Message = Message(
    id: string, account: string, mailbox: string, sortKey: string, remoteId: Option<string>,
    unseen: bool, flagged: bool, hasAttachments: bool, snoozedUntil: Option<string>,
    moveDestination: Option<string>, moveState: Option<string>, moveSpecialUse: Option<string>, allMailArchived: bool)

  /** The generated `effective_mailbox` column. */
  function Effective(m: Message): string {
    if m.moveState == Some("intent") || m.moveDestination.None? || m.moveDestination.value == "" then m.mailbox
    else m.moveDestination.value
  }

  datatype Store = Store(messages: set<Message>, folders: set<Folder>)

  /** Primary key of messages; UNIQUE(account_id, path) of folders. */
  ghost predicate Keyed(db: Store) {
    && (forall m <- db.messages, n <- db.messages :: m != n ==> m.id != n.id)
    && (forall f <- db.folders, g <- db.folders :: f != g ==> (f.account, f.path) != (g.account, g.path))
  }

  /** SQLite's UPPER: ASCII letters only. */
  function Upper(s: string): string {
    if s == "" then ""
    else [if 'a' <= s[0] <= 'z' then ((s[0] as int) - 32) as char else s[0]] + Upper(s[1..])
  }

  // ----- The lists -----

  datatype Query = Query(accountId: string, folder: string, archived: bool, starred: bool, snoozed: bool,
                         hasAttachments: bool, unread: bool)

  predicate FiledUnder(m: Message, f: Folder) {
    f.account == m.account && f.path == Effective(m)
  }

  predicate InFolderOf(db: Store, m: Message, specialUse: string) {
    exists f <- db.folders :: FiledUnder(m, f) && f.specialUse == Some(specialUse)
  }

  /** `inboxMessageFilter`. */
  predicate InInbox(db: Store, m: Message) {
    Upper(Effective(m)) == "INBOX" || InFolderOf(db, m, "\\Inbox")
  }

  /** `archivedMessageFilter`. */
  predicate Archived(db: Store, m: Message) {
    || (m.moveDestination.Some? && (m.moveState.None? || m.moveState == Some("confirmed"))
        && (m.moveSpecialUse == Some("\\Archive") || (m.moveSpecialUse == Some("\\All") && m.allMailArchived)))
    || InFolderOf(db, m, "\\Archive")
    || (m.allMailArchived && InFolderOf(db, m, "\\All")
        && !exists f <- db.folders :: f.account == m.account && f.specialUse == Some("\\Archive"))
  }

  predicate Awake(m: Message, now: string) {
    m.snoozedUntil.None? || !Less(now, m.snoozedUntil.value)
  }

  /** Which messages a list view shows: `buildMessageListSql` without search, kind and date refinements. */
  predicate Shows(db: Store, q: Query, m: Message, now: string)
    requires Keyed(db)
  {
    && (q.accountId != "" ==> m.account == q.accountId)
    && (if q.folder != "" then Effective(m) == q.folder
        else if q.archived then Archived(db, m)
        else if q.starred then m.flagged
        else if q.snoozed then !Awake(m, now)
        else if q.hasAttachments then m.hasAttachments && Represents(db, m)
        else InInbox(db, m) && Awake(m, now))
    && (q.unread ==> m.unseen)
  }

  function List(db: Store, q: Query, now: string): set<Message>
    requires Keyed(db)
  {
    set m | m in db.messages && Shows(db, q, m, now)
  }

  // ----- One row per physical message -----

  /** Where a folder stands in the preference order of the Attachments view. */
  function Rank(db: Store, m: Message): nat {
    if Upper(Effective(m)) == "INBOX" || InFolderOf(db, m, "\\Inbox") then 0
    else if InFolderOf(db, m, "\\Sent") then 1
    else if InFolderOf(db, m, "\\Drafts") then 2
    else if InFolderOf(db, m, "\\Flagged") then 3
    else if InFolderOf(db, m, "\\Important") then 4
    else if InFolderOf(db, m, "\\All") then 5
    else if InFolderOf(db, m, "\\Archive") then 6
    else if InFolderOf(db, m, "\\Junk") || InFolderOf(db, m, "\\Spam") then 7
    else if InFolderOf(db, m, "\\Trash") then 8
    else 20
  }

  /** `ORDER BY rank, sort_key DESC, id DESC`. */
  predicate Preferred(db: Store, m: Message, n: Message) {
    || Rank(db, m) < Rank(db, n)
    || (Rank(db, m) == Rank(db, n)
        && (Less(n.sortKey, m.sortKey) || (m.sortKey == n.sortKey && Less(n.id, m.id))))
  }

  /** The copies of one physical message that carry attachments. */
  function Copies(db: Store, account: string, remoteId: string): set<Message> {
    set m | m in db.messages && m.account == account && m.remoteId == Some(remoteId) && m.hasAttachments
  }

  function Preference(db: Store): (Message, Message) -> bool {
    (m: Message, n: Message) => Preferred(db, m, n)
  }

  lemma PreferenceIsTotal(db: Store, copies: set<Message>)
    requires Keyed(db) && copies <= db.messages
    ensures Strict(Preference(db)) && Total(copies, Preference(db))
  {
    hide Rank;
    LessIsStrict();
    forall m <- copies, n <- copies | m != n ensures Preferred(db, m, n) || Preferred(db, n, m) {
      LessTotal(m.id, n.id);
      if m.sortKey != n.sortKey { LessTotal(m.sortKey, n.sortKey); }
    }
  }

  /** `attachmentViewDedupeFilter`: the id of the first copy is this one's. */
  predicate Represents(db: Store, m: Message)
    requires Keyed(db)
  {
    m.remoteId.None?
    || (var copies := Copies(db, m.account, m.remoteId.value);
        PreferenceIsTotal(db, copies);
        var first := Page(copies, Preference(db), 1);
        |first| == 1 && m.id == first[0].id)
  }

  /** The first copy is the one preferred to every other. */
  lemma RepresentsTheBest(db: Store, m: Message)
    requires Keyed(db) && m in db.messages && m.remoteId.Some?
    ensures var copies := Copies(db, m.account, m.remoteId.value);
            Represents(db, m) <==> m in copies && forall n <- copies :: n == m || Preferred(db, m, n)
  {
    hide Rank, Preferred, Strict, Total, Lists, Ascending;
    var copies := Copies(db, m.account, m.remoteId.value);
    PreferenceIsTotal(db, copies);
    var list := OrderBy(copies, Preference(db));
    ListIsEmptyExactly(list, copies, Preference(db));
    if list != [] {
      HeadIsFirst(list, copies, Preference(db));
      var head := list[0];
      assert head in copies && forall n <- copies :: n == head || Preference(db)(head, n);
      Asymmetric(Preference(db), head, m);
    }
  }

  /** Each group of copies has one representative. */
  lemma OneRepresentative(db: Store, account: string, remoteId: string)
    requires Keyed(db) && Copies(db, account, remoteId) != {}
    ensures exists m <- Copies(db, account, remoteId) ::
              Represents(db, m) && forall n <- Copies(db, account, remoteId) :: Represents(db, n) ==> n == m
  {
    var copies := Copies(db, account, remoteId);
    PreferenceIsTotal(db, copies);
    var list := OrderBy(copies, Preference(db));
    HeadIsFirst(list, copies, Preference(db));
    assert forall m <- copies :: m.account == account && m.remoteId == Some(remoteId);
    assert Page(copies, Preference(db), 1) == list[..1] && list != [] && list[0] in copies;
    assert forall m <- copies, n <- copies :: m.id == n.id ==> m == n;
    hide Rank, Preferred, Strict, Total, Lists, Ascending, Page, Keyed, Copies, Preference;
    assert forall n <- copies :: Represents(db, n) <==> n.id == list[0].id;
    assert Represents(db, list[0]);
  }

  /** The Attachments view opens the inbox copy whenever there is one, and shows a copy in no known folder
      only when every copy is in none. */
  lemma RepresentativeIsWhereTheUserLooks(db: Store, m: Message, n: Message)
    requires Keyed(db) && m in db.messages && m.remoteId.Some? && Represents(db, m)
    requires n in Copies(db, m.account, m.remoteId.value)
    ensures InInbox(db, n) ==> InInbox(db, m)
    ensures Rank(db, m) == 20 ==> Rank(db, n) == 20
  {
    RanksOf(db, m);
    RanksOf(db, n);
    RepresentsTheBest(db, m);
    hide Rank, InInbox, Represents;
  }

  lemma RanksOf(db: Store, m: Message)
    ensures (Rank(db, m) == 0 <==> InInbox(db, m)) && Rank(db, m) <= 20
  {
  }

  // ----- The counts -----

  function FilesAt(db: Store, account: string, path: string): set<Message> {
    set m | m in db.messages && m.account == account && Effective(m) == path
  }

  function UnreadOf(messages: set<Message>): set<Message> {
    set m | m in messages && m.unseen
  }

  function AwakeOf(messages: set<Message>, now: string): set<Message> {
    set m | m in messages && Awake(m, now)
  }

  datatype FolderCount = FolderCount(path: string, total: nat, unseen: nat)

  function FolderCountOf(db: Store, account: string, path: string): FolderCount {
    FolderCount(path, |FilesAt(db, account, path)|, |UnreadOf(FilesAt(db, account, path))|)
  }

  /** A folder's two numbers are the sizes of the lists its row opens. */
  lemma FolderBadgeIsItsList(db: Store, account: string, path: string, now: string)
    requires Keyed(db) && account != "" && path != ""
    ensures var q := Query(account, path, false, false, false, false, false);
            FolderCountOf(db, account, path)
            == FolderCount(path, |List(db, q, now)|, |List(db, q.(unread := true), now)|)
  {
    var q := Query(account, path, false, false, false, false, false);
    assert List(db, q, now) == FilesAt(db, account, path);
    assert List(db, q.(unread := true), now) == UnreadOf(FilesAt(db, account, path));
  }

  /** The folder rows `mailboxBadges` resolves. */
  function InboxFolders(db: Store, account: string): set<Folder> {
    set f | f in db.folders && (f.specialUse == Some("\\Inbox") || Upper(f.path) == "INBOX")
            && (account != "" ==> f.account == account)
  }

  function FiledIn(db: Store, folders: set<Folder>): set<Message> {
    set m | m in db.messages && exists f <- folders :: FiledUnder(m, f)
  }

  /** The unified inbox's two numbers, added up one inbox folder at a time. */
  method InboxBadge(db: Store, now: string, account: string) returns (messages: nat, unread: nat)
    requires Keyed(db)
    ensures messages == |AwakeOf(FiledIn(db, InboxFolders(db, account)), now)|
    ensures unread == |UnreadOf(AwakeOf(FiledIn(db, InboxFolders(db, account)), now))|
  {
    var inboxes := InboxFolders(db, account);
    var left := inboxes;
    messages, unread := 0, 0;
    NoFolderYet(db, now);
    assert inboxes - left == {} && inboxes <= db.folders;
    hide *;
    while left != {}
      invariant left <= inboxes
      invariant messages == |AwakeOf(FiledIn(db, inboxes - left), now)|
      invariant unread == |UnreadOf(AwakeOf(FiledIn(db, inboxes - left), now))|
      decreases |left|
    {
      var inbox :| inbox in left;
      var filed := AwakeOf(FilesAt(db, inbox.account, inbox.path), now);
      OneMoreFolder(db, inboxes - left, inbox, now);
      messages := messages + |filed|;
      unread := unread + |UnreadOf(filed)|;
      assert inboxes - left + {inbox} == inboxes - (left - {inbox});
      left := left - {inbox};
    }
    assert inboxes - left == inboxes;
  }

  lemma NoFolderYet(db: Store, now: string)
    ensures AwakeOf(FiledIn(db, {}), now) == {} && UnreadOf(AwakeOf(FiledIn(db, {}), now)) == {}
  {
  }

  lemma OneMoreFolder(db: Store, done: set<Folder>, f: Folder, now: string)
    requires Keyed(db) && done <= db.folders && f in db.folders && f !in done
    ensures var before, filed, after := AwakeOf(FiledIn(db, done), now), AwakeOf(FilesAt(db, f.account, f.path), now),
                                        AwakeOf(FiledIn(db, done + {f}), now);
            |after| == |before| + |filed| && |UnreadOf(after)| == |UnreadOf(before)| + |UnreadOf(filed)|
  {
    var before, filed := AwakeOf(FiledIn(db, done), now), AwakeOf(FilesAt(db, f.account, f.path), now);
    var after := AwakeOf(FiledIn(db, done + {f}), now);
    assert before !! filed;
    assert after == before + filed;
    assert UnreadOf(after) == UnreadOf(before) + UnreadOf(filed) && UnreadOf(before) !! UnreadOf(filed);
  }

  /** A message the inbox list shows although no folder row names where it is filed. */
  predicate StrayInbox(db: Store, account: string, m: Message, now: string) {
    && (account != "" ==> m.account == account) && Awake(m, now)
    && Upper(Effective(m)) == "INBOX" && !exists f <- db.folders :: FiledUnder(m, f)
  }

  function Strays(db: Store, account: string, now: string): set<Message> {
    set m | m in db.messages && StrayInbox(db, account, m, now)
  }

  lemma UnreadList(db: Store, q: Query, now: string)
    requires Keyed(db) && !q.unread
    ensures List(db, q.(unread := true), now) == UnreadOf(List(db, q, now))
  {
    hide Represents, InInbox, Archived, Awake;
  }

  lemma Apart(counted: set<Message>, strays: set<Message>)
    requires counted !! strays
    ensures |counted| == |counted + strays| <==> strays == {}
    ensures |UnreadOf(counted)| == |UnreadOf(counted + strays)| <==> UnreadOf(strays) == {}
  {
    assert UnreadOf(counted + strays) == UnreadOf(counted) + UnreadOf(strays) && UnreadOf(counted) !! UnreadOf(strays);
  }

  /** The unified-inbox badge is the size of the unified-inbox list exactly when no awake message in scope
      is filed under a spelling of INBOX that has no folder row; likewise for the unread ones. */
  lemma InboxBadgeIsItsListExactly(db: Store, now: string, account: string)
    requires Keyed(db)
    ensures var q := Query(account, "", false, false, false, false, false);
            var counted := AwakeOf(FiledIn(db, InboxFolders(db, account)), now);
            && (|counted| == |List(db, q, now)| <==> forall m <- db.messages :: !StrayInbox(db, account, m, now))
            && (|UnreadOf(counted)| == |List(db, q.(unread := true), now)| <==>
                  forall m <- db.messages :: m.unseen ==> !StrayInbox(db, account, m, now))
  {
    hide Shows, StrayInbox, Awake, FiledIn, InboxFolders, Keyed;
    var q := Query(account, "", false, false, false, false, false);
    var counted, strays := AwakeOf(FiledIn(db, InboxFolders(db, account)), now), Strays(db, account, now);
    CountedAreStored(db, now, account);
    forall m <- db.messages
      ensures m in List(db, q, now) <==> m in counted || m in strays
      ensures !(m in counted && m in strays)
    {
      ShownOrStray(db, now, account, m);
    }
    assert List(db, q, now) == counted + strays;
    UnreadList(db, q, now);
    Apart(counted, strays);
    assert forall m <- db.messages :: m in strays <==> StrayInbox(db, account, m, now);
  }

  /** The smallest store where badge and list differ: one unread message in "Inbox", and no folder row.
      The list shows it, the badge counts nothing, and the folder totals miss it. */
  lemma BadgeMissesAMessageWithoutItsFolder(now: string)
    ensures var m := Message("1", "a", "Inbox", "", None, true, false, false, None, None, None, None, false);
            var db := Store({m}, {});
            var q := Query("", "", false, false, false, false, false);
            && Keyed(db)
            && AwakeOf(FiledIn(db, InboxFolders(db, "")), now) == {}
            && List(db, q, now) == List(db, q.(unread := true), now) == {m}
            && SumOfTotals(FolderCounts(db, "a", [])) == 0
  {
    var m := Message("1", "a", "Inbox", "", None, true, false, false, None, None, None, None, false);
    assert Upper("Inbox") == ['I'] + Upper("nbox") == "IN" + Upper("box") == "INB" + Upper("ox")
                          == "INBO" + Upper("x") == "INBOX" + Upper("");
    assert InInbox(Store({m}, {}), m);
  }

  lemma CountedAreStored(db: Store, now: string, account: string)
    ensures AwakeOf(FiledIn(db, InboxFolders(db, account)), now) <= db.messages
  {
  }

  lemma ShownOrStray(db: Store, now: string, account: string, m: Message)
    requires Keyed(db) && m in db.messages
    ensures var q := Query(account, "", false, false, false, false, false);
            var counted := AwakeOf(FiledIn(db, InboxFolders(db, account)), now);
            && (Shows(db, q, m, now) <==> m in counted || StrayInbox(db, account, m, now))
            && !(m in counted && StrayInbox(db, account, m, now))
  {
    var inboxes := InboxFolders(db, account);
    if f :| f in db.folders && FiledUnder(m, f) {
      assert forall g <- db.folders :: FiledUnder(m, g) ==> g == f;
      assert m in FiledIn(db, inboxes) <==> f in inboxes;
    }
  }

  // ----- The views across folders -----

  function InScope(db: Store, account: string): set<Message> {
    set m | m in db.messages && (account != "" ==> m.account == account)
  }

  function Flagged(messages: set<Message>): set<Message> {
    set m | m in messages && m.flagged
  }

  function Snoozed(messages: set<Message>, now: string): set<Message> {
    set m | m in messages && m.snoozedUntil.Some? && Less(now, m.snoozedUntil.value)
  }

  /** The starred and snoozed badges are the sizes of their lists. At every instant a message of the inbox
      is in exactly one of the inbox and snoozed lists, and so is counted in one of them. */
  lemma StarredAndSnoozedBadgesAreTheirLists(db: Store, account: string, now: string)
    requires Keyed(db)
    ensures var starred := Query(account, "", false, true, false, false, false);
            var snoozed := Query(account, "", false, false, true, false, false);
            var inbox := Query(account, "", false, false, false, false, false);
            && |Flagged(InScope(db, account))| == |List(db, starred, now)|
            && |Snoozed(InScope(db, account), now)| == |List(db, snoozed, now)|
            && (forall m <- InScope(db, account) :: InInbox(db, m) ==>
                  (m in List(db, inbox, now) <==> m !in List(db, snoozed, now)))
  {
    hide InInbox, Archived, Represents;
    assert List(db, Query(account, "", false, true, false, false, false), now) == Flagged(InScope(db, account));
    assert List(db, Query(account, "", false, false, true, false, false), now) == Snoozed(InScope(db, account), now);
  }

  // ----- Folder totals -----

  /** The counts the sidebar gets, one per folder row in the order the query lists them. */
  function FolderCounts(db: Store, account: string, rows: seq<Folder>): seq<FolderCount> {
    seq(|rows|, i requires 0 <= i < |rows| => FolderCountOf(db, account, rows[i].path))
  }

  function SumOfTotals(counts: seq<FolderCount>): nat {
    if counts == [] then 0 else counts[0].total + SumOfTotals(counts[1..])
  }

  ghost predicate ListsFolders(db: Store, account: string, rows: seq<Folder>) {
    && (forall i | 0 <= i < |rows| :: rows[i] in db.folders && rows[i].account == account)
    && (forall i, j | 0 <= i < j < |rows| :: rows[i] != rows[j])
  }

  function RowSet(rows: seq<Folder>): set<Folder> {
    set f <- rows
  }

  lemma {:induction false} TotalsAreFiled(db: Store, account: string, rows: seq<Folder>)
    requires Keyed(db) && ListsFolders(db, account, rows)
    ensures SumOfTotals(FolderCounts(db, account, rows)) == |FiledIn(db, RowSet(rows))|
    decreases |rows|
  {
    if rows == [] {
      assert FiledIn(db, RowSet(rows)) == {};
    } else {
      var f, rest := rows[0], rows[1..];
      TotalsAreFiled(db, account, rest);
      assert FolderCounts(db, account, rows)[1..] == FolderCounts(db, account, rest);
      var others, here := FiledIn(db, RowSet(rest)), FilesAt(db, account, f.path);
      assert f !in rest;
      OneFolderApart(db, rest, f);
      assert rows == [f] + rest;
      hide FiledIn, FilesAt, RowSet, Keyed, ListsFolders;
      assert |others + here| == |others| + |here|;
    }
  }

  lemma OneFolderApart(db: Store, rest: seq<Folder>, f: Folder)
    requires Keyed(db) && RowSet(rest) <= db.folders && f in db.folders && f !in rest
    ensures FiledIn(db, RowSet(rest)) !! FilesAt(db, f.account, f.path)
    ensures FiledIn(db, RowSet([f] + rest)) == FiledIn(db, RowSet(rest)) + FilesAt(db, f.account, f.path)
  {
    assert RowSet([f] + rest) == RowSet(rest) + {f};
  }

  /** An account's folder totals add up to its messages exactly when each is filed under a folder row. */
  lemma TotalsAddUpExactly(db: Store, account: string, rows: seq<Folder>)
    requires Keyed(db) && ListsFolders(db, account, rows)
    requires forall f <- db.folders :: f.account == account ==> f in rows
    ensures var all := set m | m in db.messages && m.account == account;
            SumOfTotals(FolderCounts(db, account, rows)) == |all| <==>
            forall m <- all :: exists f <- db.folders :: FiledUnder(m, f)
  {
    var all := set m | m in db.messages && m.account == account;
    var filed := FiledIn(db, RowSet(rows));
    TotalsAreFiled(db, account, rows);
    forall m <- all ensures m in filed <==> exists f <- db.folders :: FiledUnder(m, f) {
      if f :| f in db.folders && FiledUnder(m, f) {
        assert f in RowSet(rows);
      }
    }
    assert filed <= all;
    assert all == filed + (all - filed);
    assert |all| == |filed| + |all - filed|;
    assert all - filed == {} <==> forall m <- all :: m in filed;
  }

  // ----- The Attachments view -----

  type Group = (string, string)

  /** The physical messages in scope that some stored copy with attachments belongs to. */
  function Groups(db: Store, account: string): set<Group> {
    set m | m in db.messages && m.hasAttachments && m.remoteId.Some? && (account != "" ==> m.account == account)
      :: (m.account, m.remoteId.value)
  }

  function Ungrouped(db: Store, account: string): set<Message> {
    set m | m in db.messages && m.hasAttachments && m.remoteId.None? && (account != "" ==> m.account == account)
  }

  function GroupOf(m: Message): Group
    requires m.remoteId.Some?
  {
    (m.account, m.remoteId.value)
  }

  lemma {:induction false} OneEach(kept: set<Message>, groups: set<Group>)
    requires forall m <- kept :: m.remoteId.Some? && GroupOf(m) in groups
    requires forall m <- kept, n <- kept :: GroupOf(m) == GroupOf(n) ==> m == n
    requires forall g <- groups :: exists m <- kept :: GroupOf(m) == g
    ensures |kept| == |groups|
  {
    if groups == {} {
      if m :| m in kept { assert false; }
    } else {
      var g :| g in groups;
      var m :| m in kept && GroupOf(m) == g;
      OneEach(kept - {m}, groups - {g});
    }
  }

  /** The Attachments badge and list hold one row per physical message, its best-ranked copy, and every row
      of a provider that names none. */
  lemma AttachmentsShowEachMessageOnce(db: Store, account: string, now: string)
    requires Keyed(db)
    ensures |List(db, Query(account, "", false, false, false, true, false), now)|
            == |Groups(db, account)| + |Ungrouped(db, account)|
  {
    var shown := List(db, Query(account, "", false, false, false, true, false), now);
    var kept := shown - Ungrouped(db, account);
    hide InInbox, Archived, Awake, Rank, Preferred;
    assert shown == kept + Ungrouped(db, account);
    forall m <- kept, n <- kept | GroupOf(m) == GroupOf(n) ensures m == n {
      RepresentsTheBest(db, m);
      RepresentsTheBest(db, n);
      NotPreferredBoth(db, m, n);
    }
    forall c | c in db.messages && c.hasAttachments && c.remoteId.Some? && (account != "" ==> c.account == account)
      ensures exists m <- kept :: GroupOf(m) == GroupOf(c)
    {
      assert c in Copies(db, c.account, c.remoteId.value);
      OneRepresentative(db, c.account, c.remoteId.value);
      var m :| m in Copies(db, c.account, c.remoteId.value) && Represents(db, m);
      assert m in shown && m in kept;
    }
    OneEach(kept, Groups(db, account));
  }

  lemma NotPreferredBoth(db: Store, m: Message, n: Message)
    requires Keyed(db)
    ensures !(Preferred(db, m, n) && Preferred(db, n, m))
  {
    LessIsStrict();
    hide Rank;
  }
}
