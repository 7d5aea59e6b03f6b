/** The full-text mirror of the decrypted messages (message-search.ts, db.ts) and the list search that
    reads it (message-filters.ts), against the plain scan of message-storage.ts.

    A message is stored with its readable payload, or with none when it cannot be decrypted. The mirror
    is modelled with the four columns the list search looks at. */
module SearchMirror {
  import opened Keyset
  import opened Optional
  import opened Sequences
  import opened SqlLike

  type Id = string

  const PAGE_SIZE: nat := 200
  const MAX_REPORTED: nat := 50

  datatype Payload = Payload(subject: string, fromName: string, fromAddress: string, textBody: string)
  datatype Message = Message(rowid: nat, id: Id, payload: Option<Payload>)
  datatype Indexed = Indexed(id: Id, subject: string, fromName: string, fromAddress: string, body: string)

  // ----- The plain scan -----

  predicate MatchesQuery(p: Payload, query: string) {
    var needle := Fold(query);
    || Includes(Fold(p.subject), needle) || Includes(Fold(p.fromName), needle)
    || Includes(Fold(p.fromAddress), needle) || Includes(Fold(p.textBody), needle)
  }

  // ----- The mirror -----

  function IndexRow(id: Id, p: Payload): Indexed {
    Indexed(id, p.subject, p.fromName, p.fromAddress, p.textBody)
  }

  predicate RowMatches(row: Indexed, search: string) {
    var pattern := "%" + Escape(search) + "%";
    || Like(pattern, row.subject) || Like(pattern, row.fromName)
    || Like(pattern, row.fromAddress) || Like(pattern, row.body)
  }

  /** Primary key and rowid. */
  ghost predicate Keyed(messages: set<Message>) {
    && (forall m <- messages, n <- messages :: m != n ==> m.id != n.id && m.rowid != n.rowid)
    && (forall m <- messages :: m.rowid > 0)
  }

  /** At most one row per message, one for every readable message, none for any other. */
  ghost predicate Mirrors(mirror: seq<Indexed>, messages: set<Message>) {
    && (forall i, j | 0 <= i < j < |mirror| :: mirror[i].id != mirror[j].id)
    && (forall row <- mirror :: exists m <- messages :: m.payload.Some? && row == IndexRow(m.id, m.payload.value))
    && (forall m <- messages :: m.payload.Some? ==> IndexRow(m.id, m.payload.value) in mirror)
  }

  function Without(ids: set<Id>): Indexed -> bool {
    (row: Indexed) => row.id !in ids
  }

  /** `DELETE FROM messages_fts WHERE message_id IN ids`. */
  function Cleared(mirror: seq<Indexed>, ids: set<Id>): seq<Indexed> {
    Filter(mirror, Without(ids))
  }

  function IdsOf(messages: set<Message>): set<Id> {
    set m <- messages :: m.id
  }

  /** The joined rows of a list search: `messages_fts CROSS JOIN messages ON id`, filtered by LIKE. */
  function Found(search: string, ids: set<Id>): Indexed -> bool {
    (row: Indexed) => RowMatches(row, search) && row.id in ids
  }

  function Search(mirror: seq<Indexed>, messages: set<Message>, search: string): seq<Indexed> {
    Filter(mirror, Found(search, IdsOf(messages)))
  }

  // ----- Search equals scan -----

  lemma RowMatchesAsScanned(id: Id, p: Payload, search: string)
    ensures RowMatches(IndexRow(id, p), search) <==> MatchesQuery(p, search)
  {
    EscapedLikeIsLiteralSearch(search, p.subject);
    EscapedLikeIsLiteralSearch(search, p.fromName);
    EscapedLikeIsLiteralSearch(search, p.fromAddress);
    EscapedLikeIsLiteralSearch(search, p.textBody);
    assert "%" + Escape(search) + "%" == "%" + (Escape(search) + "%");
  }

  /** On a mirror in step with its messages, the list search returns each readable message the plain scan
      accepts, once, and nothing else. */
  lemma SearchIsScan(mirror: seq<Indexed>, messages: set<Message>, search: string)
    requires Keyed(messages) && Mirrors(mirror, messages)
    ensures var found := Search(mirror, messages, search);
            && (forall i, j | 0 <= i < j < |found| :: found[i].id != found[j].id)
            && (forall m <- messages ::
                  (exists row <- found :: row.id == m.id) <==> m.payload.Some? && MatchesQuery(m.payload.value, search))
            && (forall row <- found :: row.id in IdsOf(messages))
  {
    hide RowMatches, MatchesQuery;
    var test := Found(search, IdsOf(messages));
    FilterMembers(mirror, test);
    FilterKeepsDistinct(mirror, test);
    var found := Search(mirror, messages, search);
    forall x <- found, m <- messages | x.id == m.id
      ensures m.payload.Some?
    {
      var n :| n in messages && n.payload.Some? && x == IndexRow(n.id, n.payload.value);
    }
    forall m <- messages
      ensures (exists row <- found :: row.id == m.id) <==> m.payload.Some? && MatchesQuery(m.payload.value, search)
    {
      if m.payload.Some? {
        var row := IndexRow(m.id, m.payload.value);
        RowMatchesAsScanned(m.id, m.payload.value, search);
        assert row in mirror && m.id in IdsOf(messages);
        if x :| x in found && x.id == m.id {
          SameIdSameRow(mirror, x, row);
        }
      }
    }
  }

  lemma SameIdSameRow(mirror: seq<Indexed>, a: Indexed, b: Indexed)
    requires a in mirror && b in mirror && a.id == b.id
    requires forall i, j | 0 <= i < j < |mirror| :: mirror[i].id != mirror[j].id
    ensures a == b
  {
    var i :| 0 <= i < |mirror| && mirror[i] == a;
    var j :| 0 <= j < |mirror| && mirror[j] == b;
    assert i == j;
  }

  lemma {:induction false} FilterKeepsDistinct(mirror: seq<Indexed>, test: Indexed -> bool)
    requires forall i, j | 0 <= i < j < |mirror| :: mirror[i].id != mirror[j].id
    ensures var kept := Filter(mirror, test);
            forall i, j | 0 <= i < j < |kept| :: kept[i].id != kept[j].id
  {
    if mirror != [] {
      var front := mirror[..|mirror| - 1];
      FilterKeepsDistinct(front, test);
      FilterMembers(front, test);
      var kept := Filter(front, test);
      forall i | 0 <= i < |kept| ensures kept[i].id != mirror[|mirror| - 1].id {
        assert kept[i] in front;
      }
    }
  }

  // ----- The writes -----

  function Saved(messages: set<Message>, m: Message): set<Message> {
    (set n <- messages | n.id != m.id :: n) + {m}
  }

  function Removed(messages: set<Message>, ids: set<Id>): set<Message> {
    set n <- messages | n.id !in ids :: n
  }

  lemma ClearedKeeps(mirror: seq<Indexed>, messages: set<Message>, ids: set<Id>)
    requires Keyed(messages) && Mirrors(mirror, messages)
    ensures Mirrors(Cleared(mirror, ids), Removed(messages, ids))
  {
    FilterMembers(mirror, Without(ids));
    FilterKeepsDistinct(mirror, Without(ids));
    forall row <- Cleared(mirror, ids)
      ensures exists m <- Removed(messages, ids) :: m.payload.Some? && row == IndexRow(m.id, m.payload.value)
    {
      var m :| m in messages && m.payload.Some? && row == IndexRow(m.id, m.payload.value);
      assert m in Removed(messages, ids);
    }
  }

  /** Writing a message and indexing it, as sync and drafts do. */
  lemma SaveKeeps(mirror: seq<Indexed>, messages: set<Message>, m: Message)
    requires Keyed(messages) && Mirrors(mirror, messages) && m.payload.Some?
    ensures Mirrors(Cleared(mirror, {m.id}) + [IndexRow(m.id, m.payload.value)], Saved(messages, m))
  {
    ClearedKeeps(mirror, messages, {m.id});
    FilterMembers(mirror, Without({m.id}));
    var rest, row := Cleared(mirror, {m.id}), IndexRow(m.id, m.payload.value);
    forall i | 0 <= i < |rest| ensures rest[i].id != m.id { assert rest[i] in rest; }
    assert Saved(messages, m) == Removed(messages, {m.id}) + {m};
    assert row in rest + [row];
    forall r <- rest + [row]
      ensures exists n <- Saved(messages, m) :: n.payload.Some? && r == IndexRow(n.id, n.payload.value)
    {
      if r in rest {
        var n :| n in Removed(messages, {m.id}) && n.payload.Some? && r == IndexRow(n.id, n.payload.value);
        assert n in Saved(messages, m);
      } else {
        assert m in Saved(messages, m);
      }
    }
  }

  /** A batch delete clears the rows its scope selects and then deletes with the trigger dropped. The
      mirror stays in step exactly when the two agree on the readable messages. */
  lemma BatchDeleteKeepsExactly(mirror: seq<Indexed>, messages: set<Message>, scope: set<Id>, deleted: set<Id>)
    requires Keyed(messages) && Mirrors(mirror, messages)
    ensures Mirrors(Cleared(mirror, scope), Removed(messages, deleted)) <==>
            forall m <- messages :: m.payload.Some? ==> (m.id in scope <==> m.id in deleted)
  {
    FilterMembers(mirror, Without(scope));
    FilterKeepsDistinct(mirror, Without(scope));
    var left, kept := Cleared(mirror, scope), Removed(messages, deleted);
    if Mirrors(left, kept) {
      forall m <- messages | m.payload.Some?
        ensures m.id in scope <==> m.id in deleted
      {
        var row := IndexRow(m.id, m.payload.value);
        assert row in mirror;
        if row in left {
          var n :| n in kept && n.payload.Some? && row == IndexRow(n.id, n.payload.value);
          assert n == m;
        }
        assert m.id !in deleted ==> m in kept;
      }
    } else if forall m <- messages :: m.payload.Some? ==> (m.id in scope <==> m.id in deleted) {
      forall row <- left
        ensures exists m <- kept :: m.payload.Some? && row == IndexRow(m.id, m.payload.value)
      {
        var m :| m in messages && m.payload.Some? && row == IndexRow(m.id, m.payload.value);
        assert m in kept;
      }
    }
  }

  // ----- The rebuild -----

  predicate ByRowid(m: Message, n: Message) {
    m.rowid < n.rowid
  }

  lemma RowidOrderIsTotal(messages: set<Message>)
    requires Keyed(messages)
    ensures Strict(ByRowid) && Total(messages, ByRowid)
  {
  }

  function Walk(messages: set<Message>): (list: seq<Message>)
    requires Keyed(messages)
    ensures Lists(list, messages, ByRowid) && Ascending(list, ByRowid)
  {
    OrderBy(messages, ByRowid)
  }

  /** `rowid > cursor ORDER BY rowid LIMIT 200`. */
  function PageAfter(messages: set<Message>, cursor: nat): seq<Message>
    requires Keyed(messages)
  {
    Page(RowsAfter(messages, cursor), ByRowid, PAGE_SIZE)
  }

  function RowsAfter(messages: set<Message>, cursor: nat): set<Message> {
    set m | m in messages && m.rowid > cursor
  }

  lemma PageContinues(messages: set<Message>, cursor: nat, k: nat)
    requires Keyed(messages) && k <= |Walk(messages)|
    requires cursor == if k == 0 then 0 else Walk(messages)[k - 1].rowid
    ensures var walk := Walk(messages);
            var n := if |walk| - k <= PAGE_SIZE then |walk| - k else PAGE_SIZE;
            && PageAfter(messages, cursor) == walk[k..k + n]
            && (n < PAGE_SIZE ==> k + n == |walk|) && (n == 0 ==> k == |walk|)
  {
    hide Strict, Total, Lists, Ascending;
    var walk, later := Walk(messages), RowsAfter(messages, cursor);
    RowidOrderIsTotal(later);
    PageIsNext(walk, messages, later, ByRowid, k, PAGE_SIZE);
    assert walk[k..|walk|] == walk[k..];
  }

  /** The rows a rebuild writes, and the unreadable ids it reports. */
  function Rebuilt(list: seq<Message>): seq<Indexed> {
    if list == [] then []
    else
      var last := list[|list| - 1];
      Rebuilt(list[..|list| - 1]) + if last.payload.Some? then [IndexRow(last.id, last.payload.value)] else []
  }

  function Skipped(list: seq<Message>): (ids: seq<Id>)
    ensures |ids| <= MAX_REPORTED
  {
    if list == [] then []
    else
      var before, last := Skipped(list[..|list| - 1]), list[|list| - 1];
      before + if last.payload.None? && |before| < MAX_REPORTED then [last.id] else []
  }

  lemma RebuiltNothing(list: seq<Message>)
    ensures Rebuilt(list[..0]) == [] && Skipped(list[..0]) == []
  {
  }

  ghost predicate DistinctIds(list: seq<Message>) {
    forall i, j | 0 <= i < j < |list| :: list[i].id != list[j].id
  }

  lemma {:induction false} RebuiltRows(list: seq<Message>)
    ensures forall row <- Rebuilt(list) :: exists m <- list :: m.payload.Some? && row == IndexRow(m.id, m.payload.value)
    ensures forall m <- list :: m.payload.Some? ==> IndexRow(m.id, m.payload.value) in Rebuilt(list)
  {
    if list != [] {
      var front, last := list[..|list| - 1], list[|list| - 1];
      RebuiltRows(front);
      assert list == front + [last];
      forall row <- Rebuilt(list)
        ensures exists m <- list :: m.payload.Some? && row == IndexRow(m.id, m.payload.value)
      {
        if row in Rebuilt(front) {
          var m :| m in front && m.payload.Some? && row == IndexRow(m.id, m.payload.value);
          assert m in list;
        } else {
          assert last in list;
        }
      }
    }
  }

  lemma {:induction false} RebuiltOnce(list: seq<Message>)
    requires DistinctIds(list)
    ensures forall i, j | 0 <= i < j < |Rebuilt(list)| :: Rebuilt(list)[i].id != Rebuilt(list)[j].id
  {
    if list != [] {
      var front, last := list[..|list| - 1], list[|list| - 1];
      RebuiltOnce(front);
      RebuiltRows(front);
      forall row <- Rebuilt(front) ensures row.id != last.id {
        var m :| m in front && m.payload.Some? && row == IndexRow(m.id, m.payload.value);
        var k :| 0 <= k < |front| && front[k] == m;
        assert list[k] == m;
      }
    }
  }

  /** A rebuild puts the mirror in step with the messages, whatever it held before. */
  lemma RebuildMirrors(messages: set<Message>)
    requires Keyed(messages)
    ensures Mirrors(Rebuilt(Walk(messages)), messages)
  {
    var list := Walk(messages);
    RebuiltRows(list);
    forall i, j | 0 <= i < j < |list| ensures list[i].id != list[j].id {
      assert ByRowid(list[i], list[j]) && list[i] in list && list[j] in list;
    }
    RebuiltOnce(list);
    forall row <- Rebuilt(list)
      ensures exists m <- messages :: m.payload.Some? && row == IndexRow(m.id, m.payload.value)
    {
      var m :| m in list && m.payload.Some? && row == IndexRow(m.id, m.payload.value);
      assert m in messages;
    }
  }

  // ----- The tables -----

  class SearchStore {
    var messages: set<Message>
    var mirror: seq<Indexed>
    var triggerPresent: bool

    constructor ()
      ensures messages == {} && mirror == [] && triggerPresent
    {
      messages, mirror, triggerPresent := {}, [], true;
    }

    /** Deletes the message's row, then inserts the current one. */
    method IndexMessage(id: Id, p: Payload)
      modifies `mirror
      ensures mirror == Cleared(old(mirror), {id}) + [IndexRow(id, p)]
    {
      mirror := Cleared(mirror, {id});
      mirror := mirror + [IndexRow(id, p)];
    }

    /** A payload write and the index write that follows it. */
    method Save(m: Message)
      requires m.payload.Some? && Keyed(messages) && Mirrors(mirror, messages)
      modifies this
      ensures messages == Saved(old(messages), m) && Mirrors(mirror, messages)
      ensures triggerPresent == old(triggerPresent)
    {
      SaveKeeps(mirror, messages, m);
      messages := Saved(messages, m);
      IndexMessage(m.id, m.payload.value);
    }

    /** `DELETE FROM messages`: the trigger, while present, clears the mirror once per deleted row. */
    method DeleteRows(ids: set<Id>)
      modifies this
      ensures messages == Removed(old(messages), ids) && triggerPresent == old(triggerPresent)
      ensures mirror == if triggerPresent then Cleared(old(mirror), ids * IdsOf(old(messages))) else old(mirror)
    {
      var victims := ids * IdsOf(messages);
      messages := Removed(messages, ids);
      if !triggerPresent {
        return;
      }
      var left := victims;
      ClearNothing(mirror);
      assert victims - left == {};
      while left != {}
        invariant left <= victims && triggerPresent
        invariant mirror == Cleared(old(mirror), victims - left)
        invariant messages == Removed(old(messages), ids)
        decreases |left|
      {
        var id :| id in left;
        ClearTwice(old(mirror), victims - left, {id});
        assert victims - left + {id} == victims - (left - {id});
        left := left - {id};
        mirror := Cleared(mirror, {id});
      }
      assert victims - left == victims;
    }

    /** The batch path: clear what the scope selects, drop the trigger, delete, restore the trigger. The
        deletion removes `deleted` and may then throw. */
    method DeleteMessagesWithBatchFtsCleanup(scope: set<Id>, deleted: set<Id>, throws: bool) returns (threw: bool)
      modifies this
      ensures triggerPresent && threw == throws
      ensures messages == Removed(old(messages), deleted)
      ensures mirror == Cleared(old(mirror), scope * IdsOf(old(messages)))
    {
      mirror := Cleared(mirror, scope * IdsOf(messages));
      triggerPresent := false;
      DeleteRows(deleted);
      threw := throws;
      triggerPresent := true;
    }

    /** The same from a caller inside a transaction, which rolls back what a throw left, or outside one. */
    method DeleteInBatch(scope: set<Id>, deleted: set<Id>, throws: bool, transaction: bool)
      requires Keyed(messages)
      modifies this
      ensures Store(messages, mirror) == Apply(old(Store(messages, mirror)),
                                               BatchDelete(scope, deleted, throws, transaction))
      ensures triggerPresent == if throws && transaction then old(triggerPresent) else true
    {
      var before := (messages, mirror, triggerPresent);
      var threw := DeleteMessagesWithBatchFtsCleanup(scope, deleted, throws);
      if threw && transaction {
        messages, mirror, triggerPresent := before.0, before.1, before.2;
      }
    }

    /** Pages of 200 by rowid, in one transaction. */
    method Rebuild() returns (indexed: nat, skipped: seq<Id>)
      requires Keyed(messages)
      modifies `mirror
      ensures mirror == Rebuilt(Walk(messages)) && indexed == |mirror| && skipped == Skipped(Walk(messages))
    {
      hide *;
      ghost var walk, k := Walk(messages), 0;
      RebuiltNothing(walk);
      mirror, indexed, skipped := [], 0, [];
      var cursor := 0;
      while true
        invariant k <= |walk| && cursor == if k == 0 then 0 else walk[k - 1].rowid
        invariant mirror == Rebuilt(walk[..k]) && indexed == |mirror| && skipped == Skipped(walk[..k])
        decreases |walk| - k
      {
        var rows := PageAfter(messages, cursor);
        PageContinues(messages, cursor, k);
        if |rows| == 0 {
          break;
        }
        indexed, skipped := RebuildPage(rows, indexed, skipped, walk, k);
        k := k + |rows|;
        cursor := rows[|rows| - 1].rowid;
        if |rows| < PAGE_SIZE {
          break;
        }
      }
      assert walk[..|walk|] == walk;
    }

    method RebuildPage(rows: seq<Message>, indexedBefore: nat, skippedBefore: seq<Id>, ghost walk: seq<Message>,
        ghost k: nat)
      returns (indexed: nat, skipped: seq<Id>)
      requires k + |rows| <= |walk| && rows == walk[k..k + |rows|]
      requires mirror == Rebuilt(walk[..k]) && indexedBefore == |mirror| && skippedBefore == Skipped(walk[..k])
      modifies `mirror
      ensures mirror == Rebuilt(walk[..k + |rows|]) && indexed == |mirror| && skipped == Skipped(walk[..k + |rows|])
    {
      indexed, skipped := indexedBefore, skippedBefore;
      for i := 0 to |rows|
        invariant mirror == Rebuilt(walk[..k + i]) && indexed == |mirror| && skipped == Skipped(walk[..k + i])
      {
        var row := rows[i];
        assert walk[..k + i + 1][..k + i] == walk[..k + i] && walk[k + i] == row;
        if row.payload.None? {
          if |skipped| < MAX_REPORTED {
            skipped := skipped + [row.id];
          }
        } else {
          mirror := mirror + [IndexRow(row.id, row.payload.value)];
          indexed := indexed + 1;
        }
      }
    }
  }

  lemma {:induction false} ClearNothing(mirror: seq<Indexed>)
    ensures Cleared(mirror, {}) == mirror
  {
    if mirror != [] {
      ClearNothing(mirror[..|mirror| - 1]);
    }
  }

  lemma {:induction false} ClearTwice(mirror: seq<Indexed>, a: set<Id>, b: set<Id>)
    ensures Cleared(Cleared(mirror, a), b) == Cleared(mirror, a + b)
  {
    if mirror != [] {
      ClearTwice(mirror[..|mirror| - 1], a, b);
      var front, last := Cleared(mirror[..|mirror| - 1], a), mirror[|mirror| - 1];
      assert (front + [last])[..|front|] == front;
    }
  }

  // ----- Whole runs -----

  datatype Op =
    | Save(message: Message)
    | Delete(ids: set<Id>)
    | BatchDelete(scope: set<Id>, deleted: set<Id>, throws: bool, transaction: bool)
    | Rebuild
  datatype Store = Store(messages: set<Message>, mirror: seq<Indexed>)

  /** A write carries a payload and keeps the table's keys: its rowid is the message's own or unused. */
  ghost predicate Possible(s: Store, op: Op) {
    op.Save? ==>
      && op.message.payload.Some? && op.message.rowid > 0
      && forall m <- s.messages :: m.rowid == op.message.rowid ==> m.id == op.message.id
  }

  function Apply(s: Store, op: Op): Store
    requires Keyed(s.messages) && (op.Save? ==> op.message.payload.Some?)
  {
    match op
    case Save(m) => Store(Saved(s.messages, m), Cleared(s.mirror, {m.id}) + [IndexRow(m.id, m.payload.value)])
    case Delete(ids) => Store(Removed(s.messages, ids), Cleared(s.mirror, ids * IdsOf(s.messages)))
    case BatchDelete(scope, deleted, throws, transaction) =>
      if throws && transaction then s
      else Store(Removed(s.messages, deleted), Cleared(s.mirror, scope * IdsOf(s.messages)))
    case Rebuild => Store(s.messages, Rebuilt(Walk(s.messages)))
  }

  ghost predicate InStep(s: Store) {
    Keyed(s.messages) && Mirrors(s.mirror, s.messages)
  }

  /** A batch delete that is not rolled back deletes the readable messages its scope selects. */
  predicate Agrees(s: Store, op: Op) {
    op.BatchDelete? && !(op.throws && op.transaction) ==>
      forall m <- s.messages :: m.payload.Some? ==> (m.id in op.scope <==> m.id in op.deleted)
  }

  /** Each operation is possible in its turn. */
  ghost predicate PossibleRun(s: Store, ops: seq<Op>)
    decreases |ops|
  {
    Keyed(s.messages) && (ops != [] ==> Possible(s, ops[0]) && PossibleRun(Apply(s, ops[0]), ops[1..]))
  }

  function After(s: Store, ops: seq<Op>): Store
    requires PossibleRun(s, ops)
    decreases |ops|
  {
    if ops == [] then s else After(Apply(s, ops[0]), ops[1..])
  }

  ghost predicate AllAgree(s: Store, ops: seq<Op>)
    requires PossibleRun(s, ops)
    decreases |ops|
  {
    ops != [] ==> Agrees(s, ops[0]) && AllAgree(Apply(s, ops[0]), ops[1..])
  }

  /** The mirror is in step before, between and after the operations. */
  ghost predicate AlwaysInStep(s: Store, ops: seq<Op>)
    requires PossibleRun(s, ops)
    decreases |ops|
  {
    InStep(s) && (ops != [] ==> AlwaysInStep(Apply(s, ops[0]), ops[1..]))
  }

  lemma ClearedAreStored(s: Store, ids: set<Id>)
    requires InStep(s)
    ensures Mirrors(Cleared(s.mirror, ids * IdsOf(s.messages)), Removed(s.messages, ids))
  {
    ClearedKeeps(s.mirror, s.messages, ids * IdsOf(s.messages));
    assert Removed(s.messages, ids) == Removed(s.messages, ids * IdsOf(s.messages));
  }

  lemma ApplyKeepsExactly(s: Store, op: Op)
    requires InStep(s) && Possible(s, op)
    ensures InStep(Apply(s, op)) <==> Agrees(s, op)
  {
    match op
    case Save(m) =>
      SaveKeeps(s.mirror, s.messages, m);
    case Delete(ids) =>
      ClearedAreStored(s, ids);
    case BatchDelete(scope, deleted, throws, transaction) =>
      BatchDeleteKeepsExactly(s.mirror, s.messages, scope * IdsOf(s.messages), deleted);
      assert forall m <- s.messages :: m.id in IdsOf(s.messages);
    case Rebuild =>
      RebuildMirrors(s.messages);
  }

  /** Over any run of writes, deletes by trigger or in batch, and rebuilds: the mirror stays in step
      throughout exactly when every batch delete that is not rolled back deletes what it cleared. */
  lemma {:induction false} MirrorOverRuns(s: Store, ops: seq<Op>)
    requires InStep(s) && PossibleRun(s, ops)
    ensures AlwaysInStep(s, ops) <==> AllAgree(s, ops)
    decreases |ops|
  {
    if ops != [] {
      ApplyKeepsExactly(s, ops[0]);
      if Agrees(s, ops[0]) {
        MirrorOverRuns(Apply(s, ops[0]), ops[1..]);
      }
    }
  }

  lemma {:induction false} InStepAtTheEnd(s: Store, ops: seq<Op>)
    requires PossibleRun(s, ops) && AlwaysInStep(s, ops)
    ensures InStep(After(s, ops))
    decreases |ops|
  {
    if ops != [] {
      InStepAtTheEnd(Apply(s, ops[0]), ops[1..]);
    }
  }

  /** After any such run every list search returns each readable message the plain scan accepts, once, and
      nothing else. */
  lemma SearchOverRuns(s: Store, ops: seq<Op>, search: string)
    requires InStep(s) && PossibleRun(s, ops) && AllAgree(s, ops)
    ensures var t := After(s, ops);
            var found := Search(t.mirror, t.messages, search);
            && (forall i, j | 0 <= i < j < |found| :: found[i].id != found[j].id)
            && (forall m <- t.messages ::
                  (exists row <- found :: row.id == m.id) <==> m.payload.Some? && MatchesQuery(m.payload.value, search))
            && (forall row <- found :: row.id in IdsOf(t.messages))
  {
    MirrorOverRuns(s, ops);
    InStepAtTheEnd(s, ops);
    var t := After(s, ops);
    SearchIsScan(t.mirror, t.messages, search);
  }

  /** A message whose row is cleared is found by no search. */
  lemma ClearedIsNotFound(mirror: seq<Indexed>, messages: set<Message>, ids: set<Id>, id: Id, search: string)
    requires id in ids
    ensures forall row <- Search(Cleared(mirror, ids), messages, search) :: row.id != id
  {
    FilterMembers(mirror, Without(ids));
    FilterMembers(Cleared(mirror, ids), Found(search, IdsOf(messages)));
  }

  lemma FailedBatchDelete(s: Store, scope: set<Id>)
    requires Keyed(s.messages)
    ensures Apply(s, BatchDelete(scope, {}, true, false))
            == Store(s.messages, Cleared(s.mirror, scope * IdsOf(s.messages)))
  {
    assert Removed(s.messages, {}) == s.messages;
  }

  lemma RebuildRepairs(s: Store)
    requires Keyed(s.messages)
    ensures InStep(Apply(s, Rebuild))
  {
    RebuildMirrors(s.messages);
  }

  /** A batch delete that throws outside a transaction before it deleted anything: its messages stay, no
      search finds them any more, and the next rebuild repairs it. */
  lemma FailedBatchDeleteHidesItsScope(s: Store, scope: set<Id>, m: Message, search: string)
    requires InStep(s) && m in s.messages && m.payload.Some? && m.id in scope
    ensures var t := Apply(s, BatchDelete(scope, {}, true, false));
            && t.messages == s.messages && !InStep(t) && InStep(Apply(t, Rebuild))
            && forall row <- Search(t.mirror, t.messages, search) :: row.id != m.id
  {
    var op := BatchDelete(scope, {}, true, false);
    assert !Agrees(s, op) && Possible(s, op) && Keyed(s.messages) && m.id in scope * IdsOf(s.messages);
    hide *;
    FailedBatchDelete(s, scope);
    ApplyKeepsExactly(s, op);
    RebuildRepairs(Apply(s, op));
    ClearedIsNotFound(s.mirror, s.messages, scope * IdsOf(s.messages), m.id, search);
  }
}
