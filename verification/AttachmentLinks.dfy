/** Link-counted lifetimes of outbound attachments (outbound-attachments.ts).

    `Store` is the three tables and the directory; class `AttachmentStore` is the code, each method
    proved equal to a function on `Store`. A file removal may fail and be swallowed (`removable`). */
module AttachmentLinks {
  type Token = string
  type Account = string

  const MAX_COUNT: nat := 10
  const TTL_MS: int := 24 * 60 * 60 * 1000

  /** A name in the storage directory, by the pattern it matches. */
  datatype Name = Bin(id: string) | Tmp(id: string) | Backup(id: string) | Other(text: string)

  datatype Upload = Upload(account: Account, id: string, createdAt: int)
  datatype Link = Link(token: Token, account: Account, owner: string)

  datatype Store = Store(rows: map<Token, Upload>, drafts: set<Link>, submissions: set<Link>, files: set<Name>)

  predicate Linked(s: Store, t: Token) {
    exists l <- s.drafts + s.submissions :: l.token == t
  }

  /** Foreign keys, unique storage names, and a file behind every row. */
  ghost predicate Valid(s: Store) {
    && (forall l <- s.drafts + s.submissions :: l.token in s.rows && s.rows[l.token].account == l.account)
    && (forall t, u | t in s.rows && u in s.rows && t != u :: s.rows[t].id != s.rows[u].id)
    && (forall t <- s.rows :: Bin(s.rows[t].id) in s.files)
  }

  // ----- The specification -----

  /** The uploads among `tokens` that no draft and no submission holds. */
  function Unheld(s: Store, tokens: set<Token>): set<Token> {
    set t <- tokens | t in s.rows && !Linked(s, t)
  }

  function NamesOf(s: Store, tokens: set<Token>): set<Name> {
    set t <- tokens | t in s.rows :: Bin(s.rows[t].id)
  }

  /** The store without the rows and the files of `gone`. */
  function Without(s: Store, gone: set<Token>, removable: bool): Store {
    s.(rows := s.rows - gone, files := if removable then s.files - NamesOf(s, gone) else s.files)
  }

  /** `removeUnlinkedAttachments`. */
  function Drop(s: Store, tokens: set<Token>, removable: bool): Store {
    Without(s, Unheld(s, tokens), removable)
  }

  function TokensOf(links: set<Link>): set<Token> {
    set l <- links :: l.token
  }

  function OwnedBy(links: set<Link>, account: Account, owner: string): set<Link> {
    set l <- links | l.account == account && l.owner == owner
  }

  function Elements(tokens: seq<Token>): set<Token> {
    set t <- tokens
  }

  /** `validateOutboundAttachmentTokens`, the token pattern aside. */
  predicate Acceptable(tokens: seq<Token>) {
    |tokens| <= MAX_COUNT && forall i, j | 0 <= i < j < |tokens| :: tokens[i] != tokens[j]
  }

  /** `String.length`. */
  function Utf16Length(text: string): nat {
    if text == "" then 0 else (if text[0] > '\U{FFFF}' then 2 else 1) + Utf16Length(text[1..])
  }

  /** What a link to a draft demands of the draft's message id: no control character in it. */
  predicate DraftId(owner: string) {
    owner != "" && Utf16Length(owner) <= 998 && forall c <- owner :: c >= ' ' && c != '\U{007F}'
  }

  /** A list of tokens that a draft may link. The id matters only to a list that is not empty. */
  predicate Linkable(s: Store, account: Account, owner: string, tokens: seq<Token>) {
    Acceptable(tokens) && (tokens == [] || DraftId(owner)) && AllOwned(s, account, tokens)
  }

  predicate AllOwned(s: Store, account: Account, tokens: seq<Token>) {
    forall t <- tokens :: t in s.rows && s.rows[t].account == account
  }

  function NewLinks(account: Account, owner: string, tokens: seq<Token>): set<Link> {
    set t <- tokens :: Link(t, account, owner)
  }

  function Expired(s: Store, now: int): set<Token> {
    set t <- s.rows | s.rows[t].createdAt < now - TTL_MS && !Linked(s, t)
  }

  /** What the sweep deletes: every staging file and backup, and stored files no row names. */
  predicate Stray(f: Name, referenced: set<Name>) {
    f.Tmp? || f.Backup? || (f.Bin? && f !in referenced)
  }

  function Swept(s: Store): Store {
    s.(files := set f <- s.files | !Stray(f, NamesOf(s, s.rows.Keys)))
  }

  datatype Op =
    | Create(token: Token, upload: Upload, finished: bool)
    | LinkDraft(account: Account, owner: string, tokens: seq<Token>)
    | LinkSubmission(account: Account, owner: string, tokens: seq<Token>, exists_: bool)
    | Release(account: Account, owner: string, removable: bool)
    | DiscardPending(account: Account, tokens: seq<Token>, removable: bool)
    | DiscardDraft(account: Account, owner: string, removable: bool)
    | Cleanup(now: int, removable: bool)

  function Apply(s: Store, op: Op): Store {
    match op
    case Create(t, u, finished) =>
      if t in s.rows || Bin(u.id) in s.files then s
      else
        var stored := s.(files := s.files + {Bin(u.id)});
        if finished then stored.(rows := s.rows[t := u]) else stored
    case LinkDraft(account, owner, tokens) =>
      if Linkable(s, account, owner, tokens) then s.(drafts := s.drafts + NewLinks(account, owner, tokens)) else s
    case LinkSubmission(account, owner, tokens, known) =>
      if Acceptable(tokens) && known && AllOwned(s, account, tokens)
      then s.(submissions := s.submissions + NewLinks(account, owner, tokens))
      else s
    case Release(account, owner, removable) =>
      var mine := OwnedBy(s.submissions, account, owner);
      Drop(s.(submissions := s.submissions - mine), TokensOf(mine), removable)
    case DiscardPending(account, tokens, removable) =>
      if Acceptable(tokens) && AllOwned(s, account, tokens) then Drop(s, Elements(tokens), removable) else s
    case DiscardDraft(account, owner, removable) =>
      var mine := if owner == "" then {} else OwnedBy(s.drafts, account, owner);
      Drop(s.(drafts := s.drafts - mine), TokensOf(mine), removable)
    case Cleanup(now, removable) => Swept(Drop(s, Expired(s, now), removable))
  }

  function Run(s: Store, ops: seq<Op>): Store
    decreases |ops|
  {
    if ops == [] then s else Run(Apply(s, ops[0]), ops[1..])
  }

  // ----- The code -----

  /** The rows of an unordered query, as a list in some order. */
  method Listed<T(==, !new)>(s: set<T>) returns (list: seq<T>)
    ensures (forall x :: x in list <==> x in s) && |list| == |s|
  {
    list := [];
    var rest := s;
    while rest != {}
      invariant rest <= s && |list| == |s| - |rest|
      invariant forall x :: x in list <==> x in s && x !in rest
      decreases |rest|
    {
      var x :| x in rest;
      list := list + [x];
      rest := rest - {x};
    }
  }

  lemma UnheldOneMore(s: Store, tokens: seq<Token>, i: nat, removable: bool)
    requires i < |tokens|
    ensures var before := Unheld(s, Elements(tokens[..i]));
            var one := Unheld(Drop(s, Elements(tokens[..i]), removable), {tokens[i]});
            Unheld(s, Elements(tokens[..i + 1])) == before + one && before !! one
  {
    assert tokens[..i + 1] == tokens[..i] + [tokens[i]];
    assert Linked(Drop(s, Elements(tokens[..i]), removable), tokens[i]) == Linked(s, tokens[i]);
  }

  lemma WithoutBoth(s: Store, a: set<Token>, b: set<Token>, removable: bool)
    requires a !! b && a + b <= s.rows.Keys
    ensures Without(Without(s, a, removable), b, removable) == Without(s, a + b, removable)
  {
    assert NamesOf(s, a + b) == NamesOf(s, a) + NamesOf(Without(s, a, removable), b);
  }

  /** Dropping one token more is dropping it from what is left: a drop changes no link. */
  lemma DropOneMore(s: Store, tokens: seq<Token>, i: nat, removable: bool)
    requires i < |tokens|
    ensures var left := Drop(s, Elements(tokens[..i]), removable);
            && Drop(s, Elements(tokens[..i + 1]), removable) == Drop(left, {tokens[i]}, removable)
            && |Unheld(s, Elements(tokens[..i + 1]))|
               == |Unheld(s, Elements(tokens[..i]))| + |Unheld(left, {tokens[i]})|
  {
    UnheldOneMore(s, tokens, i, removable);
    var left := Drop(s, Elements(tokens[..i]), removable);
    WithoutBoth(s, Unheld(s, Elements(tokens[..i])), Unheld(left, {tokens[i]}), removable);
  }

  lemma NothingDropped(s: Store, removable: bool)
    ensures Elements([]) == TokensOf({}) == Unheld(s, {}) == {} && Drop(s, {}, removable) == s
  {
  }

  class AttachmentStore {
    var rows: map<Token, Upload>
    var drafts: set<Link>
    var submissions: set<Link>
    var files: set<Name>

    function Snapshot(): Store
      reads this
    {
      Store(rows, drafts, submissions, files)
    }

    constructor ()
      ensures Snapshot() == Store(map[], {}, {}, {})
    {
      rows, drafts, submissions, files := map[], {}, {}, {};
    }

    /** One turn of the loop below. */
    method RemoveIfUnlinked(t: Token, removable: bool) returns (removed: nat)
      modifies this
      ensures Snapshot() == Drop(old(Snapshot()), {t}, removable) && removed == |Unheld(old(Snapshot()), {t})|
    {
      if t !in rows || Linked(Snapshot(), t) {
        assert Unheld(Snapshot(), {t}) == {};
        return 0;
      }
      assert Unheld(Snapshot(), {t}) == {t} && NamesOf(Snapshot(), {t}) == {Bin(rows[t].id)};
      var name := Bin(rows[t].id);
      rows := rows - {t};
      if removable {
        files := files - {name};
      }
      removed := 1;
    }

    method RemoveUnlinked(tokens: seq<Token>, removable: bool) returns (removed: nat)
      modifies this
      ensures Snapshot() == Drop(old(Snapshot()), Elements(tokens), removable)
      ensures removed == |Unheld(old(Snapshot()), Elements(tokens))|
    {
      removed := 0;
      ghost var s := Snapshot();
      NothingDropped(s, removable);
      assert tokens[..0] == [];
      for i := 0 to |tokens|
        invariant Snapshot() == Drop(s, Elements(tokens[..i]), removable)
        invariant removed == |Unheld(s, Elements(tokens[..i]))|
      {
        DropOneMore(s, tokens, i, removable);
        var one := RemoveIfUnlinked(tokens[i], removable);
        removed := removed + one;
      }
      assert tokens[..|tokens|] == tokens;
    }

    method ReleaseSubmission(account: Account, owner: string, removable: bool) returns (removed: nat)
      modifies this
      ensures Snapshot() == Apply(old(Snapshot()), Release(account, owner, removable))
    {
      NothingDropped(Snapshot(), removable);
      var mine := set l <- submissions | l.account == account && l.owner == owner;
      if mine == {} {
        return 0;
      }
      var tokens := Listed(TokensOf(mine));
      submissions := submissions - mine;
      removed := RemoveUnlinked(tokens, removable);
    }

    method DiscardDraftAttachments(account: Account, owner: string, removable: bool) returns (removed: nat)
      modifies this
      ensures Snapshot() == Apply(old(Snapshot()), DiscardDraft(account, owner, removable))
    {
      NothingDropped(Snapshot(), removable);
      if owner == "" {
        return 0;
      }
      var mine := set l <- drafts | l.account == account && l.owner == owner;
      if mine == {} {
        return 0;
      }
      var tokens := Listed(TokensOf(mine));
      drafts := drafts - mine;
      removed := RemoveUnlinked(tokens, removable);
    }

    method DiscardPendingAttachments(account: Account, tokens: seq<Token>, removable: bool) returns (removed: nat)
      modifies this
      ensures Snapshot() == Apply(old(Snapshot()), DiscardPending(account, tokens, removable))
    {
      if !Acceptable(tokens) || !AllOwned(Snapshot(), account, tokens) {
        return 0;
      }
      removed := RemoveUnlinked(tokens, removable);
    }

    /** The linking transaction: one unknown or foreign token rolls back the links made before it. */
    method LinkToDraft(account: Account, owner: string, tokens: seq<Token>) returns (linked: bool)
      modifies this
      ensures Snapshot() == Apply(old(Snapshot()), LinkDraft(account, owner, tokens))
      ensures linked <==> Linkable(old(Snapshot()), account, owner, tokens)
    {
      if !Acceptable(tokens) {
        return false;
      }
      if tokens == [] {
        return true;
      }
      if !DraftId(owner) {
        return false;
      }
      var before := drafts;
      for i := 0 to |tokens|
        invariant rows == old(rows) && submissions == old(submissions) && files == old(files)
        invariant drafts == before + NewLinks(account, owner, tokens[..i])
        invariant forall t <- tokens[..i] :: t in rows && rows[t].account == account
      {
        if tokens[i] !in rows || rows[tokens[i]].account != account {
          drafts := before;
          return false;
        }
        drafts := drafts + {Link(tokens[i], account, owner)};
        assert tokens[..i + 1] == tokens[..i] + [tokens[i]];
      }
      assert tokens[..|tokens|] == tokens;
      linked := true;
    }

    method CleanupExpired(now: int, removable: bool) returns (removed: nat)
      modifies this
      ensures Snapshot() == Apply(old(Snapshot()), Cleanup(now, removable))
      ensures removed == |Expired(old(Snapshot()), now)|
    {
      var stale := Listed(Expired(Snapshot(), now));
      assert Elements(stale) == Expired(Snapshot(), now) == Unheld(Snapshot(), Elements(stale));
      removed := RemoveUnlinked(stale, removable);
      Sweep();
    }

    /** The directory sweep that ends the cleanup. */
    method Sweep()
      modifies this
      ensures Snapshot() == Swept(old(Snapshot()))
    {
      var referenced := NamesOf(Snapshot(), rows.Keys);
      var entries := Listed(files);
      ghost var all := files;
      for i := 0 to |entries|
        invariant rows == old(rows) && drafts == old(drafts) && submissions == old(submissions)
        invariant forall f :: f in files <==> f in all && (f in entries[..i] ==> !Stray(f, referenced))
      {
        if Stray(entries[i], referenced) {
          files := files - {entries[i]};
        }
        assert entries[..i + 1] == entries[..i] + [entries[i]];
      }
      assert entries[..|entries|] == entries;
    }
  }

  // ----- What every run keeps -----

  lemma DropKeeps(s: Store, tokens: set<Token>, removable: bool)
    requires Valid(s)
    ensures var t := Drop(s, tokens, removable);
            && Valid(t)
            && (forall x <- s.rows | Linked(t, x) ::
                  x in t.rows && t.rows[x] == s.rows[x] && Bin(s.rows[x].id) in t.files)
  {
  }

  lemma LessLinks(s: Store, drafts: set<Link>, submissions: set<Link>)
    requires Valid(s) && drafts <= s.drafts && submissions <= s.submissions
    ensures Valid(s.(drafts := drafts, submissions := submissions))
  {
  }

  lemma SweepKeeps(s: Store)
    requires Valid(s)
    ensures Valid(Swept(s)) && forall t <- s.rows :: Bin(s.rows[t].id) in Swept(s).files
  {
  }

  /** One operation keeps the tables valid, and an upload that still has a link after it keeps its row
      and its file, whatever the operation discarded. */
  lemma ApplyKeeps(s: Store, op: Op)
    requires Valid(s)
    ensures var t := Apply(s, op);
            && Valid(t)
            && (forall x <- s.rows | Linked(t, x) ::
                  x in t.rows && t.rows[x] == s.rows[x] && Bin(s.rows[x].id) in t.files)
  {
    match op
    case Release(account, owner, removable) =>
      var mine := OwnedBy(s.submissions, account, owner);
      LessLinks(s, s.drafts, s.submissions - mine);
      DropKeeps(s.(submissions := s.submissions - mine), TokensOf(mine), removable);
    case DiscardDraft(account, owner, removable) =>
      var mine := if owner == "" then {} else OwnedBy(s.drafts, account, owner);
      LessLinks(s, s.drafts - mine, s.submissions);
      DropKeeps(s.(drafts := s.drafts - mine), TokensOf(mine), removable);
    case DiscardPending(_, tokens, removable) =>
      DropKeeps(s, Elements(tokens), removable);
    case Cleanup(now, removable) =>
      DropKeeps(s, Expired(s, now), removable);
      SweepKeeps(Drop(s, Expired(s, now), removable));
    case _ =>
  }

  /** Over any run of operations: what is linked at the end has its row and its file. */
  lemma {:induction false} LinkedUploadsSurvive(s: Store, ops: seq<Op>)
    requires Valid(s)
    ensures var t := Run(s, ops);
            Valid(t) && forall x | Linked(t, x) :: x in t.rows && Bin(t.rows[x].id) in t.files
    decreases |ops|
  {
    if ops != [] {
      ApplyKeeps(s, ops[0]);
      LinkedUploadsSurvive(Apply(s, ops[0]), ops[1..]);
    }
  }

  /** An upload linked throughout a run is untouched by it, row and file. */
  ghost predicate HeldThroughout(s: Store, ops: seq<Op>, x: Token)
    decreases |ops|
  {
    Linked(s, x) && (ops != [] ==> HeldThroughout(Apply(s, ops[0]), ops[1..], x))
  }

  lemma {:induction false} HeldUploadIsUntouched(s: Store, ops: seq<Op>, x: Token)
    requires Valid(s) && HeldThroughout(s, ops, x)
    ensures x in s.rows && x in Run(s, ops).rows && Run(s, ops).rows[x] == s.rows[x]
            && Bin(s.rows[x].id) in Run(s, ops).files
    decreases |ops|
  {
    if ops != [] {
      ApplyKeeps(s, ops[0]);
      HeldUploadIsUntouched(Apply(s, ops[0]), ops[1..], x);
    }
  }

  /** A cleanup leaves no stored file unreferenced, whatever the run before it left behind, and removes
      exactly the expired uploads nothing holds. */
  lemma CleanupLeavesNoStrays(s: Store, ops: seq<Op>, now: int, removable: bool)
    requires Valid(s)
    ensures var before, after := Run(s, ops), Apply(Run(s, ops), Cleanup(now, removable));
            && (forall f <- after.files :: f.Other? || (f.Bin? && exists t <- after.rows :: f == Bin(after.rows[t].id)))
            && (forall t <- before.rows ::
                  t in after.rows <==> before.rows[t].createdAt >= now - TTL_MS || Linked(before, t))
  {
    LinkedUploadsSurvive(s, ops);
  }

  /** Discarding a draft removes exactly the uploads whose only links were that draft's. */
  lemma DiscardRemovesExactlyTheUnheld(s: Store, account: Account, owner: string)
    requires Valid(s)
    ensures var t := Apply(s, DiscardDraft(account, owner, true));
            forall x <- s.rows ::
              x !in t.rows <==>
                && owner != ""
                && (exists l <- s.drafts :: l.token == x && l.account == account && l.owner == owner)
                && (forall l <- s.drafts + s.submissions | l.token == x ::
                      l in s.drafts && l !in s.submissions && l.owner == owner)
  {
  }
}
