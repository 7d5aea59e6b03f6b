/** The flag push (flags-outbox.ts): re-positioned entries, guarded by generations, grouped into STORE
    commands (section 6.4.6 of RFC 3501), and retried.

    The server is its flags, one set per UID of a mailbox. A STORE it does not confirm may have reached
    any part of its UIDs. */
module FlagsOutbox {
  import opened MailboxGeneration
  import opened Optional
  import opened Sequences

  type Flag = string

  datatype Slot = Slot(mailbox: Mailbox, uid: int)

  /** One payload entry; `frozen` is the position it was accepted at, if it names one. */
  datatype Entry = Entry(id: Id, frozen: Option<Slot>, add: seq<Flag>, remove: seq<Flag>,
      uidValidity: Option<Generation>)

  /** What the push reads besides its payload: current positions, and the live and cached generations. */
  datatype Context = Context(positions: map<Id, Slot>, live: map<Mailbox, Generation>, cached: map<Mailbox, Generation>)

  type Flags = map<Slot, set<Flag>>

  function Lookup(m: map<Mailbox, Generation>, mailbox: Mailbox): Option<Generation> {
    if mailbox in m then Some(m[mailbox]) else None
  }

  function EvidenceOf(e: Entry, position: Slot): Evidence {
    if e.frozen == Some(position) then Accepted(e.uidValidity)
    else if e.frozen.Some? then Current
    else Accepted(None)
  }

  predicate Permitted(e: Entry, c: Context) {
    && e.id in c.positions
    && var at := c.positions[e.id];
       AllowsWrite(EvidenceOf(e, at), Lookup(c.live, at.mailbox), Lookup(c.cached, at.mailbox))
  }

  function Names(flags: seq<Flag>): set<Flag> {
    set f <- flags
  }

  /** What one entry asks for, on the flags its message has. */
  function Delta(flags: set<Flag>, e: Entry): set<Flag> {
    flags + Names(e.add) - Names(e.remove)
  }

  // ----- The simple form: one STORE pair per permitted entry, in payload order -----

  function StoreOne(flags: Flags, e: Entry, c: Context): Flags {
    if Permitted(e, c) && c.positions[e.id] in flags
    then flags[c.positions[e.id] := Delta(flags[c.positions[e.id]], e)]
    else flags
  }

  function OneByOne(flags: Flags, entries: seq<Entry>, c: Context): Flags {
    if entries == [] then flags
    else StoreOne(OneByOne(flags, entries[..|entries| - 1], c), entries[|entries| - 1], c)
  }

  /** What acceptance guarantees: no id twice, and no position held by two messages. */
  ghost predicate Unambiguous(entries: seq<Entry>, c: Context) {
    && (forall i, j | 0 <= i < j < |entries| :: entries[i].id != entries[j].id)
    && (forall x, y | x in c.positions && y in c.positions && x != y :: c.positions[x] != c.positions[y])
  }

  predicate Targeted(slot: Slot, entries: seq<Entry>, c: Context) {
    exists e <- entries :: Permitted(e, c) && c.positions[e.id] == slot
  }

  /** Every slot is either where it was or where its entry wants it. */
  ghost predicate Completed(before: Flags, after: Flags, entries: seq<Entry>, c: Context) {
    && after.Keys == before.Keys
    && (forall slot <- before | !Targeted(slot, entries, c) :: after[slot] == before[slot])
    && (forall e <- entries | Permitted(e, c) && c.positions[e.id] in before ::
          after[c.positions[e.id]] == Delta(before[c.positions[e.id]], e))
  }

  /** An attempt under way: nothing it has done to a slot changes what its entry will make of it. */
  ghost predicate Underway(before: Flags, now: Flags, entries: seq<Entry>, c: Context) {
    && now.Keys == before.Keys
    && (forall slot <- before | !Targeted(slot, entries, c) :: now[slot] == before[slot])
    && (forall e <- entries | Permitted(e, c) && c.positions[e.id] in before ::
          Delta(now[c.positions[e.id]], e) == Delta(before[c.positions[e.id]], e))
  }

  lemma {:induction false} OneByOneCompletes(flags: Flags, entries: seq<Entry>, c: Context)
    requires Unambiguous(entries, c)
    ensures Completed(flags, OneByOne(flags, entries, c), entries, c)
  {
    if entries != [] {
      var front, last := entries[..|entries| - 1], entries[|entries| - 1];
      OneByOneCompletes(flags, front, c);
      assert forall e <- entries :: e in front || e == last;
      assert forall e <- front :: e in entries && e.id != last.id;
      assert last in entries;
      var mid := OneByOne(flags, front, c);
      forall slot <- flags | !Targeted(slot, entries, c)
        ensures StoreOne(mid, last, c)[slot] == flags[slot]
      {
        assert !Targeted(slot, front, c);
      }
      if Permitted(last, c) && c.positions[last.id] in flags {
        assert !Targeted(c.positions[last.id], front, c);
      }
    }
  }

  lemma CompletedIsUnique(before: Flags, x: Flags, y: Flags, entries: seq<Entry>, c: Context)
    requires Completed(before, x, entries, c) && Completed(before, y, entries, c)
    ensures x == y
  {
    forall slot <- before
      ensures x[slot] == y[slot]
    {
      if Targeted(slot, entries, c) {
        var e :| e in entries && Permitted(e, c) && c.positions[e.id] == slot;
      }
    }
  }

  /** Completing after any part of an attempt gives what completing alone would have given. */
  lemma CompletingResumes(before: Flags, now: Flags, after: Flags, entries: seq<Entry>, c: Context)
    requires Underway(before, now, entries, c) && Completed(now, after, entries, c)
    ensures Completed(before, after, entries, c)
  {
  }

  lemma UnderwayTransitive(x: Flags, y: Flags, z: Flags, entries: seq<Entry>, c: Context)
    requires Underway(x, y, entries, c) && Underway(y, z, entries, c)
    ensures Underway(x, z, entries, c)
  {
  }

  // ----- The grouping key -----

  function Join(flags: seq<Flag>): string {
    if flags == [] then ""
    else if |flags| == 1 then flags[0]
    else flags[0] + "," + Join(flags[1..])
  }

  function Key(e: Entry): string {
    Join(e.add) + "\0" + Join(e.remove)
  }

  /** Flag names as IMAP spells them: not empty, no comma, no NUL. */
  predicate FlagName(f: Flag) {
    f != "" && ',' !in f && '\0' !in f
  }

  predicate NamesFlags(e: Entry) {
    (forall f <- e.add :: FlagName(f)) && (forall f <- e.remove :: FlagName(f))
  }

  lemma {:induction false} JoinHasNoNul(flags: seq<Flag>)
    requires forall f <- flags :: FlagName(f)
    ensures '\0' !in Join(flags) && (Join(flags) == "" <==> flags == [])
    ensures |flags| > 1 ==> ',' in Join(flags)
    ensures |flags| == 1 ==> ',' !in Join(flags)
  {
    if flags != [] {
      assert flags[0] in flags;
    }
    if |flags| > 1 {
      JoinHasNoNul(flags[1..]);
      assert Join(flags)[|flags[0]|] == ',';
    }
  }

  lemma {:induction false} JoinInjective(a: seq<Flag>, b: seq<Flag>)
    requires (forall f <- a :: FlagName(f)) && (forall f <- b :: FlagName(f))
    requires Join(a) == Join(b)
    ensures a == b
    decreases |a|
  {
    JoinHasNoNul(a);
    JoinHasNoNul(b);
    if |a| > 1 {
      assert a[0] in a && b[0] in b;
      assert Join(a) == a[0] + [','] + Join(a[1..]) && Join(b) == b[0] + [','] + Join(b[1..]);
      SplitUnique(a[0], Join(a[1..]), b[0], Join(b[1..]), ',');
      JoinInjective(a[1..], b[1..]);
      assert a == [a[0]] + a[1..] && b == [b[0]] + b[1..];
    }
  }

  /** Entries share a group exactly when they ask for the same lists of flags. */
  lemma KeyInjective(d: Entry, e: Entry)
    requires NamesFlags(d) && NamesFlags(e)
    ensures Key(d) == Key(e) <==> d.add == e.add && d.remove == e.remove
  {
    if Key(d) == Key(e) {
      JoinHasNoNul(d.add);
      JoinHasNoNul(e.add);
      SplitUnique(Join(d.add), Join(d.remove), Join(e.add), Join(e.remove), '\0');
      JoinInjective(d.add, e.add);
      JoinInjective(d.remove, e.remove);
    }
  }

  // ----- The code -----

  function Stored(flags: set<Flag>, names: set<Flag>, adding: bool): set<Flag> {
    if adding then flags + names else flags - names
  }

  class ImapServer {
    var flags: Flags

    constructor (flags: Flags)
      ensures this.flags == flags
    {
      this.flags := flags;
    }

    /** One STORE. Unconfirmed, it may have reached any of its UIDs. */
    method Store(mailbox: Mailbox, uids: seq<int>, names: seq<Flag>, adding: bool) returns (confirmed: bool)
      modifies this
      ensures flags.Keys == old(flags).Keys
      ensures forall slot <- flags ::
                if slot.mailbox == mailbox && slot.uid in uids
                then || flags[slot] == Stored(old(flags)[slot], Names(names), adding)
                     || (!confirmed && flags[slot] == old(flags)[slot])
                else flags[slot] == old(flags)[slot]
    {
      confirmed := *;
      var reached: set<int> := *;
      if confirmed {
        reached := set u <- uids;
      }
      flags := map slot <- flags ::
        if slot.mailbox == mailbox && slot.uid in uids && slot.uid in reached
        then Stored(flags[slot], Names(names), adding) else flags[slot];
    }

    method SendGroup(mailbox: Mailbox, g: Group) returns (confirmed: bool)
      modifies this
      ensures GroupSent(old(flags), flags, mailbox, g, confirmed)
    {
      confirmed := true;
      if g.add != [] {
        confirmed := Store(mailbox, g.uids, g.add, true);
        if !confirmed { return; }
      }
      if g.remove != [] {
        confirmed := Store(mailbox, g.uids, g.remove, false);
      }
    }
  }

  /** One STORE pair: the flags of its first member, the UIDs of all of them. */
  datatype Group = Group(add: seq<Flag>, remove: seq<Flag>, uids: seq<int>)

  /** What sending one group leaves: done if confirmed, and otherwise nothing that doing it again would
      not mend. */
  ghost predicate GroupSent(before: Flags, after: Flags, mailbox: Mailbox, g: Group, confirmed: bool) {
    && after.Keys == before.Keys
    && forall slot <- after ::
         if slot.mailbox == mailbox && slot.uid in g.uids
         then && after[slot] + Names(g.add) - Names(g.remove) == before[slot] + Names(g.add) - Names(g.remove)
              && (confirmed ==> after[slot] == before[slot] + Names(g.add) - Names(g.remove))
         else after[slot] == before[slot]
  }

  datatype Pushed = Pushed(entry: Entry, uid: int, evidence: Evidence)

  /** The payload entries positioned in one mailbox, as the push will judge them. */
  ghost predicate GroupOf(mailbox: Mailbox, group: seq<Pushed>, entries: seq<Entry>, c: Context) {
    && (forall p <- group ::
          && p.entry in entries && p.entry.id in c.positions && c.positions[p.entry.id] == Slot(mailbox, p.uid)
          && p.evidence == EvidenceOf(p.entry, Slot(mailbox, p.uid)))
    && (forall e <- entries | e.id in c.positions && c.positions[e.id].mailbox == mailbox ::
          exists p <- group :: p.entry == e)
    && (forall i, j | 0 <= i < j < |group| :: group[i].entry.id != group[j].entry.id)
  }

  function IdsOf(entries: set<Entry>): set<Id> {
    set e <- entries :: e.id
  }

  function Unpositioned(entries: seq<Entry>, c: Context): set<Id> {
    set e <- entries | e.id !in c.positions :: e.id
  }

  function NotPermitted(entries: seq<Entry>, c: Context): set<Id> {
    set e <- entries | !Permitted(e, c) :: e.id
  }

  function PushedAt(e: Entry, at: Slot): Pushed {
    Pushed(e, at.uid, EvidenceOf(e, at))
  }

  lemma GroupGrows(mailbox: Mailbox, group: seq<Pushed>, entries: seq<Entry>, i: nat, c: Context)
    requires Unambiguous(entries, c) && i < |entries| && GroupOf(mailbox, group, entries[..i], c)
    requires entries[i].id in c.positions && c.positions[entries[i].id].mailbox == mailbox
    ensures GroupOf(mailbox, group + [PushedAt(entries[i], c.positions[entries[i].id])], entries[..i + 1], c)
  {
    var pushed := PushedAt(entries[i], c.positions[entries[i].id]);
    assert entries[..i + 1] == entries[..i] + [entries[i]];
    forall e <- entries[..i + 1] | e.id in c.positions && c.positions[e.id].mailbox == mailbox
      ensures exists p <- group + [pushed] :: p.entry == e
    {
      if e in entries[..i] {
        var p :| p in group && p.entry == e;
        assert p in group + [pushed];
      } else {
        assert pushed in group + [pushed];
      }
    }
    forall p <- group
      ensures p.entry.id != entries[i].id
    {
      assert p.entry in entries[..i];
    }
  }

  lemma GroupStays(mailbox: Mailbox, group: seq<Pushed>, entries: seq<Entry>, i: nat, c: Context)
    requires i < |entries| && GroupOf(mailbox, group, entries[..i], c)
    requires entries[i].id in c.positions ==> c.positions[entries[i].id].mailbox != mailbox
    ensures GroupOf(mailbox, group, entries[..i + 1], c)
  {
    assert entries[..i + 1] == entries[..i] + [entries[i]];
  }

  lemma UnpositionedGrows(entries: seq<Entry>, i: nat, c: Context)
    requires Unambiguous(entries, c) && i < |entries|
    ensures |Unpositioned(entries[..i + 1], c)|
            == |Unpositioned(entries[..i], c)| + if entries[i].id in c.positions then 0 else 1
  {
    assert entries[..i + 1] == entries[..i] + [entries[i]];
    var id := entries[i].id;
    if id in c.positions {
      assert Unpositioned(entries[..i + 1], c) == Unpositioned(entries[..i], c);
    } else {
      assert Unpositioned(entries[..i + 1], c) == Unpositioned(entries[..i], c) + {id};
    }
  }

  method GroupByMailbox(entries: seq<Entry>, c: Context)
      returns (order: seq<Mailbox>, groups: map<Mailbox, seq<Pushed>>, dropped: nat)
    requires Unambiguous(entries, c)
    ensures (forall i, j | 0 <= i < j < |order| :: order[i] != order[j]) && (forall mb :: mb in order <==> mb in groups)
    ensures forall mb <- groups :: GroupOf(mb, groups[mb], entries, c)
    ensures forall e <- entries | e.id in c.positions :: c.positions[e.id].mailbox in groups
    ensures dropped == |Unpositioned(entries, c)|
  {
    order, groups, dropped := [], map[], 0;
    for i := 0 to |entries|
      invariant forall i, j | 0 <= i < j < |order| :: order[i] != order[j]
      invariant forall mb :: mb in order <==> mb in groups
      invariant forall mb <- groups :: GroupOf(mb, groups[mb], entries[..i], c)
      invariant forall e <- entries[..i] | e.id in c.positions :: c.positions[e.id].mailbox in groups
      invariant dropped == |Unpositioned(entries[..i], c)|
    {
      var e := entries[i];
      UnpositionedGrows(entries, i, c);
      forall mb <- groups | e.id in c.positions ==> c.positions[e.id].mailbox != mb {
        GroupStays(mb, groups[mb], entries, i, c);
      }
      if e.id !in c.positions {
        dropped := dropped + 1;
      } else {
        var position := c.positions[e.id];
        var group := if position.mailbox in groups then groups[position.mailbox] else [];
        GroupGrows(position.mailbox, group, entries, i, c);
        if position.mailbox !in groups {
          order := order + [position.mailbox];
        }
        groups := groups[position.mailbox := group + [PushedAt(e, position)]];
      }
    }
    assert entries[..|entries|] == entries;
  }

  /** The groups of one mailbox: a flag list pair each, and exactly the UIDs that asked for it. */
  ghost predicate FlagGroups(groups: seq<Group>, permitted: seq<Pushed>) {
    && (forall p <- permitted :: exists g <- groups :: InGroup(p, g))
    && (forall g <- groups, u <- g.uids :: exists p <- permitted :: p.uid == u && InGroup(p, g))
  }

  predicate InGroup(p: Pushed, g: Group) {
    g.add == p.entry.add && g.remove == p.entry.remove && p.uid in g.uids
  }

  /** A map of groups built from a list of members, `ks[i]` being the key of the i-th. */
  ghost predicate Keyed<K>(byKey: map<K, Group>, permitted: seq<Pushed>, ks: seq<K>) {
    && |ks| == |permitted|
    && (forall i | 0 <= i < |ks| :: ks[i] in byKey && InGroup(permitted[i], byKey[ks[i]]))
    && (forall k <- byKey ::
          && byKey[k].uids != []
          && forall u <- byKey[k].uids :: exists i :: 0 <= i < |ks| && ks[i] == k && permitted[i].uid == u)
  }

  function WithMember<K(==)>(byKey: map<K, Group>, k: K, p: Pushed): map<K, Group> {
    var g := if k in byKey then byKey[k] else Group(p.entry.add, p.entry.remove, []);
    byKey[k := g.(uids := g.uids + [p.uid])]
  }

  lemma KeyedGrows<K>(byKey: map<K, Group>, permitted: seq<Pushed>, ks: seq<K>, k: K, p: Pushed)
    requires Keyed(byKey, permitted, ks)
    requires forall i | 0 <= i < |ks| && ks[i] == k ::
            permitted[i].entry.add == p.entry.add && permitted[i].entry.remove == p.entry.remove
    ensures Keyed(WithMember(byKey, k, p), permitted + [p], ks + [k])
  {
    var next, more, ks' := WithMember(byKey, k, p), permitted + [p], ks + [k];
    if k in byKey {
      assert byKey[k].uids[0] in byKey[k].uids;
      var i :| 0 <= i < |ks| && ks[i] == k && permitted[i].uid == byKey[k].uids[0];
      assert InGroup(permitted[i], byKey[k]);
    }
    forall j <- next, u <- next[j].uids
      ensures exists i :: 0 <= i < |ks'| && ks'[i] == j && more[i].uid == u
    {
      if j in byKey && u in byKey[j].uids {
        var i :| 0 <= i < |ks| && ks[i] == j && permitted[i].uid == u;
        assert ks'[i] == j && more[i].uid == u;
      } else {
        assert ks'[|ks|] == j && more[|ks|].uid == u;
      }
    }
  }

  lemma KeyedGroups<K>(groups: seq<Group>, keys: seq<K>, byKey: map<K, Group>, permitted: seq<Pushed>, ks: seq<K>)
    requires Keyed(byKey, permitted, ks) && |groups| == |keys|
    requires (forall n | 0 <= n < |keys| :: keys[n] in byKey && groups[n] == byKey[keys[n]])
            && forall k <- byKey :: k in keys
    ensures FlagGroups(groups, permitted)
  {
    forall p <- permitted
      ensures exists g <- groups :: InGroup(p, g)
    {
      var i :| 0 <= i < |permitted| && permitted[i] == p;
      var n :| 0 <= n < |keys| && keys[n] == ks[i];
      assert groups[n] in groups && InGroup(p, groups[n]);
    }
    forall g <- groups, u <- g.uids
      ensures exists p <- permitted :: p.uid == u && InGroup(p, g)
    {
      var n :| 0 <= n < |groups| && groups[n] == g;
      var i :| 0 <= i < |ks| && ks[i] == keys[n] && permitted[i].uid == u;
      assert permitted[i] in permitted && InGroup(permitted[i], g);
    }
  }

  method GroupByFlags(permitted: seq<Pushed>) returns (groups: seq<Group>)
    requires forall p <- permitted :: NamesFlags(p.entry)
    ensures FlagGroups(groups, permitted)
  {
    var keys: seq<string>, byKey: map<string, Group> := [], map[];
    ghost var ks: seq<string> := [];
    for i := 0 to |permitted|
      invariant |ks| == i && forall n | 0 <= n < i :: ks[n] == Key(permitted[n].entry)
      invariant forall k :: k in keys <==> k in byKey
      invariant Keyed(byKey, permitted[..i], ks)
    {
      var p := permitted[i];
      assert permitted[..i + 1] == permitted[..i] + [p];
      var k := Key(p.entry);
      forall n | 0 <= n < i && ks[n] == k
        ensures permitted[n].entry.add == p.entry.add && permitted[n].entry.remove == p.entry.remove
      {
        KeyInjective(permitted[n].entry, p.entry);
      }
      KeyedGrows(byKey, permitted[..i], ks, k, p);
      if k !in byKey {
        keys := keys + [k];
      }
      byKey := WithMember(byKey, k, p);
      ks := ks + [k];
    }
    assert permitted[..|permitted|] == permitted;
    groups := [];
    for i := 0 to |keys|
      invariant |groups| == i && forall n | 0 <= n < i :: groups[n] == byKey[keys[n]]
    {
      groups := groups + [byKey[keys[i]]];
    }
    KeyedGroups(groups, keys, byKey, permitted, ks);
  }

  ghost predicate Done(before: Flags, now: Flags, mailbox: Mailbox, p: Pushed) {
    Slot(mailbox, p.uid) in before && Slot(mailbox, p.uid) in now ==>
      now[Slot(mailbox, p.uid)] == Delta(before[Slot(mailbox, p.uid)], p.entry)
  }

  /** The permitted entries of one mailbox. */
  ghost predicate PermittedOf(mailbox: Mailbox, permitted: seq<Pushed>, entries: seq<Entry>, c: Context) {
    forall p <- permitted ::
      p.entry in entries && Permitted(p.entry, c) && c.positions[p.entry.id] == Slot(mailbox, p.uid)
  }

  /** Sending a group keeps the attempt under way, finishes the group's own entries, and leaves those of
      the groups before it finished. */
  lemma GroupEffect(start: Flags, before: Flags, after: Flags, mailbox: Mailbox, g: Group, permitted: seq<Pushed>,
                    confirmed: bool, entries: seq<Entry>, c: Context)
    requires Unambiguous(entries, c) && PermittedOf(mailbox, permitted, entries, c)
    requires Underway(start, before, entries, c) && GroupSent(before, after, mailbox, g, confirmed)
    requires forall u <- g.uids :: exists p <- permitted :: p.uid == u && InGroup(p, g)
    ensures Underway(start, after, entries, c)
    ensures confirmed ==> forall p <- permitted | p.uid in g.uids || Done(start, before, mailbox, p) ::
            Done(start, after, mailbox, p)
  {
    forall e <- entries | Permitted(e, c) && c.positions[e.id] in start && c.positions[e.id].mailbox == mailbox
        && c.positions[e.id].uid in g.uids
      ensures Names(e.add) == Names(g.add) && Names(e.remove) == Names(g.remove)
    {
      var p :| p in permitted && p.uid == c.positions[e.id].uid && InGroup(p, g);
      SamePosition(e, p.entry, entries, c);
    }
    forall slot <- start | !Targeted(slot, entries, c)
      ensures after[slot] == start[slot]
    {
    }
  }

  lemma SamePosition(d: Entry, e: Entry, entries: seq<Entry>, c: Context)
    requires Unambiguous(entries, c) && d in entries && e in entries
    requires d.id in c.positions && e.id in c.positions && c.positions[d.id] == c.positions[e.id]
    ensures d == e
  {
  }

  /** The generation check over one mailbox's entries. */
  method Admit(mailbox: Mailbox, group: seq<Pushed>, ghost entries: seq<Entry>, c: Context)
      returns (permitted: seq<Pushed>, refused: nat)
    requires GroupOf(mailbox, group, entries, c)
    ensures forall p :: p in permitted <==> p in group && Permitted(p.entry, c)
    ensures refused == |RefusedIds(group, c)|
  {
    permitted, refused := [], 0;
    for i := 0 to |group|
      invariant refused == |RefusedIds(group[..i], c)|
      invariant forall p :: p in permitted <==> p in group[..i] && Permitted(p.entry, c)
    {
      assert group[..i + 1] == group[..i] + [group[i]];
      if AllowsWrite(group[i].evidence, Lookup(c.live, mailbox), Lookup(c.cached, mailbox)) {
        assert RefusedIds(group[..i + 1], c) == RefusedIds(group[..i], c);
        permitted := permitted + [group[i]];
      } else {
        assert RefusedIds(group[..i + 1], c) == RefusedIds(group[..i], c) + {group[i].entry.id};
        refused := refused + 1;
      }
    }
    assert group[..|group|] == group;
  }

  function RefusedIds(group: seq<Pushed>, c: Context): set<Id> {
    set p <- group | !Permitted(p.entry, c) :: p.entry.id
  }

  method SendGroups(server: ImapServer, mailbox: Mailbox, groups: seq<Group>, ghost permitted: seq<Pushed>,
      ghost entries: seq<Entry>,
                    ghost c: Context)
      returns (confirmed: bool)
    requires Unambiguous(entries, c) && PermittedOf(mailbox, permitted, entries, c)
    requires forall g <- groups, u <- g.uids :: exists p <- permitted :: p.uid == u && InGroup(p, g)
    modifies server
    ensures Underway(old(server.flags), server.flags, entries, c)
    ensures Elsewhere(old(server.flags), server.flags, mailbox)
    ensures confirmed ==> forall p <- permitted | exists g <- groups :: p.uid in g.uids ::
            Done(old(server.flags), server.flags, mailbox, p)
  {
    ghost var start := server.flags;
    for i := 0 to |groups|
      invariant Underway(start, server.flags, entries, c)
      invariant Elsewhere(start, server.flags, mailbox)
      invariant forall p <- permitted | exists g <- groups[..i] :: p.uid in g.uids ::
              Done(start, server.flags, mailbox, p)
    {
      ghost var before := server.flags;
      confirmed := server.SendGroup(mailbox, groups[i]);
      assert groups[..i + 1] == groups[..i] + [groups[i]];
      GroupEffect(start, before, server.flags, mailbox, groups[i], permitted, confirmed, entries, c);
      if !confirmed {
        return;
      }
    }
    assert groups[..|groups|] == groups;
    confirmed := true;
  }

  /** Nothing outside one mailbox has changed. */
  ghost predicate Elsewhere(before: Flags, after: Flags, mailbox: Mailbox) {
    before.Keys == after.Keys && forall slot <- before | slot.mailbox != mailbox :: after[slot] == before[slot]
  }

  /** The entries given up once some mailboxes have been served. */
  function LostIds(entries: seq<Entry>, boxes: seq<Mailbox>, c: Context): set<Id> {
    set e <- entries | e.id !in c.positions || (c.positions[e.id].mailbox in boxes && !Permitted(e, c)) :: e.id
  }

  function RefusedAt(mailbox: Mailbox, entries: seq<Entry>, c: Context): set<Id> {
    set e <- entries | e.id in c.positions && c.positions[e.id].mailbox == mailbox && !Permitted(e, c) :: e.id
  }

  lemma RefusedIdsAre(mailbox: Mailbox, group: seq<Pushed>, entries: seq<Entry>, c: Context)
    requires GroupOf(mailbox, group, entries, c)
    ensures RefusedIds(group, c) == RefusedAt(mailbox, entries, c)
  {
    forall id <- RefusedAt(mailbox, entries, c)
      ensures id in RefusedIds(group, c)
    {
      var e :| e in entries && e.id == id && id in c.positions && c.positions[id].mailbox == mailbox
          && !Permitted(e, c);
      var p :| p in group && p.entry == e;
    }
  }

  lemma LostGrows(entries: seq<Entry>, boxes: seq<Mailbox>, mailbox: Mailbox, c: Context)
    requires mailbox !in boxes
    ensures |LostIds(entries, boxes + [mailbox], c)| == |LostIds(entries, boxes, c)| + |RefusedAt(mailbox, entries, c)|
    ensures LostIds(entries, boxes + [mailbox], c) >= LostIds(entries, boxes, c) >= LostIds(entries, [], c)
    ensures |RefusedAt(mailbox, entries, c)| == 0
            ==> LostIds(entries, boxes + [mailbox], c) == LostIds(entries, boxes, c)
  {
    var before, at := LostIds(entries, boxes, c), RefusedAt(mailbox, entries, c);
    assert LostIds(entries, boxes + [mailbox], c) == before + at;
    assert before !! at;
  }

  /** The mailboxes served so far hold what was asked, the others what they held. */
  ghost predicate Served(start: Flags, now: Flags, entries: seq<Entry>, boxes: seq<Mailbox>, c: Context) {
    && Underway(start, now, entries, c)
    && (forall slot <- start | slot.mailbox !in boxes :: now[slot] == start[slot])
    && (forall e <- entries | Permitted(e, c) && c.positions[e.id].mailbox in boxes && c.positions[e.id] in start ::
          now[c.positions[e.id]] == Delta(start[c.positions[e.id]], e))
  }

  lemma ServedGrows(start: Flags, before: Flags, after: Flags, entries: seq<Entry>, boxes: seq<Mailbox>,
      mailbox: Mailbox, group: seq<Pushed>, c: Context)
    requires Served(start, before, entries, boxes, c) && mailbox !in boxes && GroupOf(mailbox, group, entries, c)
    requires Underway(before, after, entries, c) && Elsewhere(before, after, mailbox)
    requires forall p <- group | Permitted(p.entry, c) :: Done(before, after, mailbox, p)
    ensures Served(start, after, entries, boxes + [mailbox], c)
  {
    UnderwayTransitive(start, before, after, entries, c);
    forall e <- entries | Permitted(e, c) && c.positions[e.id].mailbox in boxes + [mailbox]
        && c.positions[e.id] in start
      ensures after[c.positions[e.id]] == Delta(start[c.positions[e.id]], e)
    {
      if c.positions[e.id].mailbox == mailbox {
        var p :| p in group && p.entry == e;
        assert Done(before, after, mailbox, p);
      }
    }
  }

  datatype Outcome = Threw | Settled(pushed: nat, dropped: nat, generationChanged: bool)

  /** What is done under one mailbox lock; taking it may throw. */
  method ServeMailbox(server: ImapServer, mailbox: Mailbox, group: seq<Pushed>, ghost entries: seq<Entry>, c: Context)
      returns (served: bool, refused: nat)
    requires Unambiguous(entries, c) && GroupOf(mailbox, group, entries, c) && forall e <- entries :: NamesFlags(e)
    modifies server
    ensures Underway(old(server.flags), server.flags, entries, c)
    ensures served ==>
              && Elsewhere(old(server.flags), server.flags, mailbox)
              && (forall p <- group | Permitted(p.entry, c) :: Done(old(server.flags), server.flags, mailbox, p))
              && refused == |RefusedAt(mailbox, entries, c)|
  {
    served := *;
    if !served {
      return false, 0;
    }
    var permitted;
    permitted, refused := Admit(mailbox, group, entries, c);
    RefusedIdsAre(mailbox, group, entries, c);
    if permitted != [] {
      var groups := GroupByFlags(permitted);
      served := SendGroups(server, mailbox, groups, permitted, entries, c);
    }
  }

  /** `pushFlagsRemote`, from the resolved positions on. */
  method PushFlagsRemote(server: ImapServer, entries: seq<Entry>, c: Context) returns (r: Outcome)
    requires Unambiguous(entries, c) && forall e <- entries :: NamesFlags(e)
    modifies server
    ensures r.Threw? ==> Underway(old(server.flags), server.flags, entries, c)
    ensures r.Settled? ==>
              && server.flags == OneByOne(old(server.flags), entries, c)
              && r.pushed + r.dropped == |entries| && r.dropped == |NotPermitted(entries, c)|
              && (r.generationChanged <==> exists e <- entries :: e.id in c.positions && !Permitted(e, c))
  {
    ghost var start := server.flags;
    var order, groups, dropped := GroupByMailbox(entries, c);
    var changed := false;
    NoneServed(start, entries, c);
    assert order[..0] == [];
    hide Served, Underway, Elsewhere, Done, GroupOf, LostIds, RefusedAt, Permitted, NotPermitted, OneByOne, NamesFlags;
    for i := 0 to |order|
      invariant Served(start, server.flags, entries, order[..i], c)
      invariant dropped == |LostIds(entries, order[..i], c)|
      invariant changed <==> LostIds(entries, order[..i], c) != LostIds(entries, [], c)
    {
      ghost var before := server.flags;
      assert order[..i + 1] == order[..i] + [order[i]];
      LostGrows(entries, order[..i], order[i], c);
      var served, refused := ServeMailbox(server, order[i], groups[order[i]], entries, c);
      if !served {
        ServedIsUnderway(start, before, server.flags, entries, order[..i], c);
        return Threw;
      }
      ServedGrows(start, before, server.flags, entries, order[..i], order[i], groups[order[i]], c);
      dropped, changed := dropped + refused, changed || refused > 0;
    }
    assert order[..|order|] == order;
    AllServed(start, server.flags, entries, order, c);
    ChangedMeansRefused(entries, c);
    LostAtMost(entries, c);
    r := Settled(|entries| - dropped, dropped, changed);
  }

  lemma NoneServed(start: Flags, entries: seq<Entry>, c: Context)
    ensures Served(start, start, entries, [], c) && LostIds(entries, [], c) == Unpositioned(entries, c)
  {
  }

  lemma ServedIsUnderway(start: Flags, before: Flags, after: Flags, entries: seq<Entry>, boxes: seq<Mailbox>,
      c: Context)
    requires Served(start, before, entries, boxes, c) && Underway(before, after, entries, c)
    ensures Underway(start, after, entries, c)
  {
    UnderwayTransitive(start, before, after, entries, c);
  }

  lemma AllServed(start: Flags, now: Flags, entries: seq<Entry>, boxes: seq<Mailbox>, c: Context)
    requires Unambiguous(entries, c) && Served(start, now, entries, boxes, c)
    requires forall e <- entries | e.id in c.positions :: c.positions[e.id].mailbox in boxes
    ensures now == OneByOne(start, entries, c) && LostIds(entries, boxes, c) == NotPermitted(entries, c)
  {
    OneByOneCompletes(start, entries, c);
    CompletedIsUnique(start, now, OneByOne(start, entries, c), entries, c);
  }

  lemma ChangedMeansRefused(entries: seq<Entry>, c: Context)
    requires Unambiguous(entries, c)
    ensures NotPermitted(entries, c) != LostIds(entries, [], c)
            <==> exists e <- entries :: e.id in c.positions && !Permitted(e, c)
  {
    if e :| e in entries && e.id in c.positions && !Permitted(e, c) {
      assert e.id in NotPermitted(entries, c) && e.id !in LostIds(entries, [], c);
    } else {
      assert NotPermitted(entries, c) == LostIds(entries, [], c);
    }
  }

  lemma {:induction false} LostAtMost(entries: seq<Entry>, c: Context)
    ensures |NotPermitted(entries, c)| <= |entries|
  {
    if entries != [] {
      var front, last := entries[..|entries| - 1], entries[|entries| - 1];
      LostAtMost(front, c);
      assert entries == front + [last];
      assert NotPermitted(entries, c) == NotPermitted(front, c) + if Permitted(last, c) then {} else {last.id};
    }
  }

  // ----- Retries -----

  /** Any number of attempts that failed part-way, followed by one that completes, leaves what a single
      complete attempt would have left. `states` are the flags before the first attempt and after each
      failed one. */
  lemma {:induction false} RetriesReachTheSameState(states: seq<Flags>, entries: seq<Entry>, c: Context)
    requires Unambiguous(entries, c) && states != []
    requires forall i | 0 <= i < |states| - 1 :: Underway(states[i], states[i + 1], entries, c)
    ensures OneByOne(states[|states| - 1], entries, c) == OneByOne(states[0], entries, c)
  {
    if |states| > 1 {
      var last := states[|states| - 1];
      RetriesReachTheSameState(states[..|states| - 1], entries, c);
      var previous := states[|states| - 2];
      OneByOneCompletes(previous, entries, c);
      OneByOneCompletes(last, entries, c);
      CompletingResumes(previous, last, OneByOne(last, entries, c), entries, c);
      CompletedIsUnique(previous, OneByOne(last, entries, c), OneByOne(previous, entries, c), entries, c);
    }
  }

  /** One attempt, with what it read, where the messages really were, and the flags around it. */
  datatype Attempt = Attempt(c: Context, places: map<Id, Slot>, before: Flags, after: Flags)

  function FlagsBefore(a: Attempt, id: Id): set<Flag>
    requires id in a.places && a.places[id] in a.before
  {
    a.before[a.places[id]]
  }

  function FlagsAfter(a: Attempt, id: Id): set<Flag>
    requires id in a.places && a.places[id] in a.after
  {
    a.after[a.places[id]]
  }

  /** The messages `ids` are on the server, each at its own place, and an entry whose write is permitted is
      positioned at its message's place. */
  ghost predicate Located(a: Attempt, entries: seq<Entry>, ids: set<Id>) {
    && Unambiguous(entries, a.c) && a.after.Keys == a.before.Keys
    && (forall id <- ids :: id in a.places && a.places[id] in a.before)
    && (forall x <- ids, y <- ids :: x != y ==> a.places[x] != a.places[y])
    && (forall e <- entries :: e.id in ids && (Permitted(e, a.c) ==> a.c.positions[e.id] == a.places[e.id]))
  }

  /** A series of attempts on one payload. Between two of them messages may move and generations may
      change, but nobody else changes the flags of these messages. */
  ghost predicate Series(attempts: seq<Attempt>, entries: seq<Entry>, ids: set<Id>) {
    && (forall a <- attempts :: Located(a, entries, ids) && Underway(a.before, a.after, entries, a.c))
    && (forall i, id | 0 <= i < |attempts| - 1 && id in ids ::
          FlagsBefore(attempts[i + 1], id) == FlagsAfter(attempts[i], id))
  }

  /** What one attempt, complete or not, does to the flags of one message. */
  lemma AttemptOnMessage(a: Attempt, entries: seq<Entry>, ids: set<Id>, id: Id)
    requires Located(a, entries, ids) && Underway(a.before, a.after, entries, a.c) && id in ids
    ensures forall e <- entries | e.id == id :: Delta(FlagsAfter(a, id), e) == Delta(FlagsBefore(a, id), e)
    ensures (forall e <- entries | e.id == id :: !Permitted(e, a.c)) ==> FlagsAfter(a, id) == FlagsBefore(a, id)
  {
    if forall e <- entries | e.id == id :: !Permitted(e, a.c) {
      assert !Targeted(a.places[id], entries, a.c);
    }
  }

  lemma {:induction false} SeriesOnMessage(attempts: seq<Attempt>, entries: seq<Entry>, ids: set<Id>, id: Id)
    requires Series(attempts, entries, ids) && attempts != [] && id in ids
    ensures var first, last := attempts[0], attempts[|attempts| - 1];
            && (forall e <- entries | e.id == id :: Delta(FlagsAfter(last, id), e) == Delta(FlagsBefore(first, id), e))
            && ((forall a <- attempts, e <- entries | e.id == id :: !Permitted(e, a.c)) ==>
                  FlagsAfter(last, id) == FlagsBefore(first, id))
  {
    hide Underway, Permitted, Delta;
    var n := |attempts|;
    AttemptOnMessage(attempts[n - 1], entries, ids, id);
    if n > 1 {
      assert forall a <- attempts[..n - 1] :: a in attempts;
      SeriesOnMessage(attempts[..n - 1], entries, ids, id);
      assert FlagsBefore(attempts[n - 2 + 1], id) == FlagsAfter(attempts[n - 2], id);
    }
  }

  /** Any number of interrupted attempts, each with the positions and generations of its own moment, and
      then a complete one. A message whose entry that one permits ends with its first flags and the
      entry's delta; a message with no entry, or whose entry no attempt permitted, ends as it was. */
  lemma RetriesAcrossChanges(attempts: seq<Attempt>, entries: seq<Entry>, ids: set<Id>)
    requires Series(attempts, entries, ids) && attempts != []
    requires var last := attempts[|attempts| - 1]; last.after == OneByOne(last.before, entries, last.c)
    ensures var first, last := attempts[0], attempts[|attempts| - 1];
            && (forall e <- entries | Permitted(e, last.c) ::
                  FlagsAfter(last, e.id) == Delta(FlagsBefore(first, e.id), e))
            && (forall id <- ids | forall a <- attempts, e <- entries | e.id == id :: !Permitted(e, a.c) ::
                  FlagsAfter(last, id) == FlagsBefore(first, id))
  {
    var first, last := attempts[0], attempts[|attempts| - 1];
    OneByOneCompletes(last.before, entries, last.c);
    forall e <- entries | Permitted(e, last.c)
      ensures FlagsAfter(last, e.id) == Delta(FlagsBefore(first, e.id), e)
    {
      SeriesOnMessage(attempts, entries, ids, e.id);
      assert FlagsAfter(last, e.id) == Delta(FlagsBefore(last, e.id), e);
    }
    forall id <- ids | forall a <- attempts, e <- entries | e.id == id :: !Permitted(e, a.c)
      ensures FlagsAfter(last, id) == FlagsBefore(first, id)
    {
      SeriesOnMessage(attempts, entries, ids, id);
    }
  }
}
