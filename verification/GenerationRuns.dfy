/** Writes that hit the right message, over every run of deliveries, rebuilds, syncs, moves and flag
    tasks (mailbox-generation.ts, flags-outbox.ts; the folder reset of sync.ts).

    One account. The account's write slot makes each step atomic. A row remembers which message it
    describes, which the code does not store: it is what the theorems are about. */
module GenerationRuns {
  import opened MailboxGeneration
  import opened Optional

  type Message = nat

  /** A UID inside one generation of one mailbox. */
  datatype Place = Place(mailbox: Mailbox, generation: Generation, uid: int)

  /** `bound` is what every place has ever held; `used` the generations every mailbox has ever had. */
  datatype Server = Server(live: map<Mailbox, Generation>, bound: map<Place, Message>, used: set<(Mailbox, Generation)>)

  /** `pending`: a move is wanted for the row. `sending`: it stands for a message not yet seen in Sent. */
  datatype Row = Row(mailbox: Mailbox, uid: int, pending: bool, sending: bool, denotes: Message)

  /** A flag entry as sealed at acceptance, and the message it was accepted for. */
  datatype Entry = Entry(id: Id, mailbox: Mailbox, uid: int, frozen: Option<Generation>, message: Message)

  datatype World = World(server: Server, rows: map<Id, Row>, cached: map<Mailbox, Generation>,
                         queue: set<Entry>, moves: map<Id, AcceptedMove>)

  datatype Step =
    | Deliver(mailbox: Mailbox, uid: int, message: Message)
    | Rebuild(mailbox: Mailbox, generation: Generation)
    | Accept(id: Id)
    | AcceptMove(id: Id)
    | Move(id: Id, destination: Mailbox, uid: int)
    | Begin(id: Id)
    | GiveUp(id: Id)
    | LoseLocation(id: Id, uid: int)
    | Reset(mailbox: Mailbox, dropped: set<Id>)
    | Forget(mailbox: Mailbox)
    | Learn(id: Id, mailbox: Mailbox, uid: int)
    | Compose(id: Id, mailbox: Mailbox, uid: int, message: Message)
    | Claim(id: Id, uid: int)
    | Retract(id: Id)

  function CachedOf(w: World, mailbox: Mailbox): Option<Generation> {
    if mailbox in w.cached then Some(w.cached[mailbox]) else None
  }

  /** The place a row's UID names on the server as it is now. */
  function LivePlace(w: World, mailbox: Mailbox, uid: int): Place
    requires mailbox in w.server.live
  {
    Place(mailbox, w.server.live[mailbox], uid)
  }

  /** The rows that wait neither for a move nor for a delivery: a reset deletes these at the least. */
  function Settled(w: World, mailbox: Mailbox): set<Id> {
    set id <- w.rows | w.rows[id].mailbox == mailbox && !w.rows[id].pending && !w.rows[id].sending
  }

  predicate Free(w: World, mailbox: Mailbox, uid: int) {
    forall id <- w.rows | w.rows[id].mailbox == mailbox :: w.rows[id].uid != uid
  }

  predicate Enabled(w: World, step: Step) {
    match step
    case Deliver(mailbox, uid, _) =>
      mailbox in w.server.live && uid > 0 && LivePlace(w, mailbox, uid) !in w.server.bound
    case Rebuild(mailbox, g) => mailbox in w.server.live && g != "" && (mailbox, g) !in w.server.used
    case Accept(id) => id in w.rows && !w.rows[id].pending
    case AcceptMove(id) => id in w.rows && !w.rows[id].pending
    // A move, immediate or queued, under the generation check; UIDPLUS reports the new position.
    case Move(id, destination, uid) =>
      && id in w.rows && (!w.rows[id].pending || id in w.moves)
      && w.rows[id].mailbox in w.server.live && destination in w.server.live
      && !Refused(Guarded(id, w.rows[id].mailbox, CachedOf(w, w.rows[id].mailbox)),
                  Some(w.server.live[w.rows[id].mailbox]), w.moves)
      && LivePlace(w, w.rows[id].mailbox, w.rows[id].uid) in w.server.bound
      && uid > 0 && LivePlace(w, destination, uid) !in w.server.bound
    // The durable intent of an immediate move whose outcome stays uncertain, and giving a goal back.
    case Begin(id) => id in w.rows && !w.rows[id].pending
    case GiveUp(id) => id in w.rows
    // A confirmed move without UIDPLUS: the row keeps a negative placeholder.
    case LoseLocation(id, uid) => id in w.rows && w.rows[id].pending && uid < 0
    // A sync of one folder records the live generation; a changed one deletes the folder's rows, but
    // only those without a pending destination (or with an uncertain intent) and without a pending send.
    case Reset(mailbox, dropped) =>
      && mailbox in w.server.live
      && (forall id <- dropped :: id in w.rows && w.rows[id].mailbox == mailbox)
      && (forall id <- dropped :: w.rows[id].sending ==> w.rows[id].pending)
      && (if mailbox in w.cached && w.cached[mailbox] != w.server.live[mailbox] then Settled(w, mailbox) <= dropped
          else dropped == {})
    // A folder missing from the provider's list loses its settled rows and its recorded generation. It
    // may be listed again later.
    case Forget(mailbox) => true
    // ...and then reads messages, filling a free id or refreshing the row already at that position.
    case Learn(id, mailbox, uid) =>
      && mailbox in w.server.live && CachedOf(w, mailbox) == Some(w.server.live[mailbox])
      && LivePlace(w, mailbox, uid) in w.server.bound
      && (id in w.rows ==> w.rows[id].mailbox == mailbox && w.rows[id].uid == uid)
      && (forall x <- w.rows | w.rows[x].mailbox == mailbox && w.rows[x].uid == uid :: x == id)
    // A placeholder in the Sent folder; the sync that finds the message gives it the real UID, or it goes.
    case Compose(id, mailbox, uid, _) => id !in w.rows && mailbox in w.server.live && uid < 0 && Free(w, mailbox, uid)
    case Claim(id, uid) =>
      && id in w.rows && w.rows[id].sending && Free(w, w.rows[id].mailbox, uid)
      && w.rows[id].mailbox in w.server.live
      && CachedOf(w, w.rows[id].mailbox) == Some(w.server.live[w.rows[id].mailbox])
      && LivePlace(w, w.rows[id].mailbox, uid) in w.server.bound
    case Retract(id) => id in w.rows && w.rows[id].sending
  }

  function Next(w: World, step: Step): World
    requires Enabled(w, step)
  {
    match step
    case Deliver(mailbox, uid, message) =>
      w.(server := w.server.(bound := w.server.bound[LivePlace(w, mailbox, uid) := message]))
    case Rebuild(mailbox, g) =>
      w.(server := w.server.(live := w.server.live[mailbox := g], used := w.server.used + {(mailbox, g)}))
    case Accept(id) =>
      var r := w.rows[id];
      w.(queue := w.queue + {Entry(id, r.mailbox, r.uid, CachedOf(w, r.mailbox), r.denotes)})
    case AcceptMove(id) =>
      var r := w.rows[id];
      w.(rows := w.rows[id := r.(pending := true)],
         moves := w.moves[id := AcceptedMove(Some(r.mailbox), CachedOf(w, r.mailbox))])
    case Move(id, destination, uid) =>
      var r := w.rows[id];
      var moved := w.server.bound[LivePlace(w, r.mailbox, r.uid)];
      var others := map x <- w.rows | x == id || w.rows[x].mailbox != destination || w.rows[x].uid != uid :: w.rows[x];
      w.(server := w.server.(bound := w.server.bound[LivePlace(w, destination, uid) := moved]),
         rows := others[id := Row(destination, uid, false, false, r.denotes)],
         moves := w.moves - {id})
    case Begin(id) => w.(rows := w.rows[id := w.rows[id].(pending := true)])
    case GiveUp(id) => w.(rows := w.rows[id := w.rows[id].(pending := false)], moves := w.moves - {id})
    case LoseLocation(id, uid) => w.(rows := w.rows[id := w.rows[id].(uid := uid)], moves := w.moves - {id})
    case Reset(mailbox, dropped) =>
      w.(rows := w.rows - dropped, cached := w.cached[mailbox := w.server.live[mailbox]])
    case Forget(mailbox) => w.(rows := w.rows - Settled(w, mailbox), cached := w.cached - {mailbox})
    case Learn(id, mailbox, uid) =>
      var pending := id in w.rows && w.rows[id].pending;
      var message := w.server.bound[LivePlace(w, mailbox, uid)];
      w.(rows := w.rows[id := Row(mailbox, uid, pending, false, message)])
    case Compose(id, mailbox, uid, message) => w.(rows := w.rows[id := Row(mailbox, uid, false, true, message)])
    case Claim(id, uid) =>
      var message := w.server.bound[LivePlace(w, w.rows[id].mailbox, uid)];
      w.(rows := w.rows[id := w.rows[id].(uid := uid, sending := false, denotes := message)])
    case Retract(id) => w.(rows := w.rows - {id})
  }

  // ----- The push -----

  datatype Verdict = Dropped | Refusal | Sent(place: Place)

  /** The evidence `pushFlagsRemote` judges a re-positioned entry by. */
  function EvidenceFor(e: Entry, r: Row): Evidence {
    if e.mailbox == r.mailbox && e.uid == r.uid then Accepted(e.frozen) else Current
  }

  /** What the push does with one entry when the server names its generation. */
  function Push(w: World, e: Entry): Verdict
    requires e.id in w.rows ==> w.rows[e.id].mailbox in w.server.live
  {
    if e.id !in w.rows then Dropped
    else
      var r := w.rows[e.id];
      if AllowsWrite(EvidenceFor(e, r), Some(w.server.live[r.mailbox]), CachedOf(w, r.mailbox))
      then Sent(LivePlace(w, r.mailbox, r.uid))
      else Refusal
  }

  // ----- The invariant -----

  /** Bookkeeping that holds whatever happens. */
  ghost predicate Recorded(w: World) {
    && (forall mb <- w.server.live :: w.server.live[mb] != "" && (mb, w.server.live[mb]) in w.server.used)
    && (forall mb <- w.cached :: (mb, w.cached[mb]) in w.server.used)
    && (forall p <- w.server.bound :: p.uid > 0)
    && (forall id <- w.rows :: w.rows[id].mailbox in w.server.live && (w.rows[id].sending ==> w.rows[id].uid < 0))
    && (forall e <- w.queue | e.frozen.Some? :: (e.mailbox, e.frozen.value) in w.server.used)
    && (forall id <- w.moves ::
          && w.moves[id].mailbox.Some?
          && (w.moves[id].generation.Some?
              ==> (w.moves[id].mailbox.value, w.moves[id].generation.value) in w.server.used))
  }

  /** A row whose UID the server, as it is now, gives to the message the row describes. */
  predicate NamesItsOwn(w: World, r: Row) {
    && r.mailbox in w.server.live
    && LivePlace(w, r.mailbox, r.uid) in w.server.bound
    && w.server.bound[LivePlace(w, r.mailbox, r.uid)] == r.denotes
  }

  /** In a folder whose recorded generation is the live one, every real UID is the row's own. */
  predicate InPlace(w: World, r: Row) {
    r.mailbox in w.server.live && CachedOf(w, r.mailbox) == Some(w.server.live[r.mailbox]) && r.uid > 0
    ==> NamesItsOwn(w, r)
  }

  predicate EntryInPlace(w: World, e: Entry) {
    e.mailbox in w.server.live && e.frozen == Some(w.server.live[e.mailbox]) && e.uid > 0
    ==> LivePlace(w, e.mailbox, e.uid) in w.server.bound
        && w.server.bound[LivePlace(w, e.mailbox, e.uid)] == e.message
  }

  /** While a row sits where its queued move was accepted, under the generation frozen then, its UID is its
      own, whether or not the folder's generation is still recorded. */
  predicate MoveInPlace(w: World, id: Id)
    requires id in w.moves && w.moves[id].mailbox.Some?
  {
    var at := w.moves[id].mailbox.value;
    && id in w.rows && w.rows[id].mailbox == at && w.rows[id].uid > 0
    && at in w.server.live && w.moves[id].generation == Some(w.server.live[at])
    ==> NamesItsOwn(w, w.rows[id])
  }

  ghost predicate Inv(w: World) {
    && Recorded(w)
    && (forall id <- w.rows :: InPlace(w, w.rows[id]))
    && (forall e <- w.queue :: EntryInPlace(w, e))
    && (forall id <- w.moves :: MoveInPlace(w, id))
  }

  /** A folder reset keeps only rows whose UID is still their own. */
  predicate KeepsOnlyItsOwn(w: World, step: Step) {
    step.Reset? ==>
      forall id <- w.rows | w.rows[id].mailbox == step.mailbox && id !in step.dropped && w.rows[id].uid > 0 ::
        NamesItsOwn(w, w.rows[id])
  }

  lemma RecordedKept(w: World, step: Step)
    requires Recorded(w) && Enabled(w, step)
    ensures Recorded(Next(w, step))
  {
    hide *;
    match step
    case Reset(mailbox, dropped) => RecordedKeptByReset(w, mailbox, dropped);
    case Move(id, destination, uid) => RecordedKeptByMove(w, id, destination, uid);
    case AcceptMove(id) => RecordedKeptByAcceptMove(w, id);
    case Learn(id, mailbox, uid) => RecordedKeptByLearn(w, id, mailbox, uid);
    case Deliver(_, _, _) => RecordedKeptByServer(w, step);
    case Rebuild(_, _) => RecordedKeptByServer(w, step);
    case Compose(_, _, _, _) => RecordedKeptBySending(w, step);
    case Claim(_, _) => RecordedKeptBySending(w, step);
    case Retract(_) => RecordedKeptBySending(w, step);
    case _ => RecordedKeptByRest(w, step);
  }

  lemma RecordedKeptByServer(w: World, step: Step)
    requires Recorded(w) && (step.Deliver? || step.Rebuild?) && Enabled(w, step)
    ensures Recorded(Next(w, step))
  {
  }

  lemma RecordedKeptBySending(w: World, step: Step)
    requires Recorded(w) && (step.Compose? || step.Claim? || step.Retract?) && Enabled(w, step)
    ensures Recorded(Next(w, step))
  {
  }

  lemma RecordedKeptByRest(w: World, step: Step)
    requires Recorded(w) && Enabled(w, step)
    requires step.Accept? || step.Begin? || step.GiveUp? || step.LoseLocation? || step.Forget?
    ensures Recorded(Next(w, step))
  {
  }

  lemma RecordedKeptByAcceptMove(w: World, id: Id)
    requires Recorded(w) && Enabled(w, AcceptMove(id))
    ensures Recorded(Next(w, AcceptMove(id)))
  {
  }

  lemma RecordedKeptByLearn(w: World, id: Id, mailbox: Mailbox, uid: int)
    requires Recorded(w) && Enabled(w, Learn(id, mailbox, uid))
    ensures Recorded(Next(w, Learn(id, mailbox, uid)))
  {
  }

  lemma RecordedKeptByMove(w: World, id: Id, destination: Mailbox, uid: int)
    requires Recorded(w) && Enabled(w, Move(id, destination, uid))
    ensures Recorded(Next(w, Move(id, destination, uid)))
  {
    hide Refused;
  }

  lemma RecordedKeptByReset(w: World, mailbox: Mailbox, dropped: set<Id>)
    requires Recorded(w) && Enabled(w, Reset(mailbox, dropped))
    ensures Recorded(Next(w, Reset(mailbox, dropped)))
  {
  }

  /** An enabled move moves the message its row describes. */
  lemma MoveHitsItsMessage(w: World, step: Step)
    requires Inv(w) && step.Move? && Enabled(w, step)
    ensures w.server.bound[LivePlace(w, w.rows[step.id].mailbox, w.rows[step.id].uid)] == w.rows[step.id].denotes
  {
    assert InPlace(w, w.rows[step.id]);
    if step.id in w.moves {
      assert MoveInPlace(w, step.id);
    }
  }

  // What a step leaves as it was.

  /** The steps that may give a row its position, or a queued move its row. */
  predicate Positions(step: Step, id: Id) {
    && (step.AcceptMove? || step.Learn? || step.Claim? || step.Compose? || step.LoseLocation? || step.Move?)
    && step.id == id
  }

  lemma RowUntouched(w: World, step: Step, id: Id)
    requires Enabled(w, step) && id in Next(w, step).rows && !Positions(step, id)
    ensures id in w.rows
    ensures var r, n := w.rows[id], Next(w, step).rows[id];
            n.uid == r.uid && n.mailbox == r.mailbox && n.denotes == r.denotes
  {
    hide Refused;
  }

  lemma MoveUntouched(w: World, step: Step, id: Id)
    requires Enabled(w, step) && id in Next(w, step).moves && !Positions(step, id)
    ensures id in w.moves && Next(w, step).moves[id] == w.moves[id]
  {
    hide Refused;
  }

  /** Only a rebuild changes a live generation, and to one never used; nothing unbinds a place. */
  lemma ServerAfter(w: World, step: Step)
    requires Enabled(w, step)
    ensures var n := Next(w, step);
            && (forall p <- w.server.bound :: p in n.server.bound && n.server.bound[p] == w.server.bound[p])
            && (if step.Rebuild?
                then n.server.live == w.server.live[step.mailbox := step.generation]
                     && (step.mailbox, step.generation) !in w.server.used
                else n.server.live == w.server.live)
  {
    hide Refused;
  }

  /** Only a reset records a generation. */
  lemma CachedAfter(w: World, step: Step, mailbox: Mailbox)
    requires Enabled(w, step) && !step.Reset?
    ensures CachedOf(Next(w, step), mailbox).None? || CachedOf(Next(w, step), mailbox) == CachedOf(w, mailbox)
  {
    hide Refused;
  }

  /** Only a rebuild takes a UID away from its message. */
  lemma StillItsOwn(w: World, step: Step, r: Row)
    requires NamesItsOwn(w, r) && Enabled(w, step) && !(step.Rebuild? && step.mailbox == r.mailbox)
    ensures NamesItsOwn(Next(w, step), r)
  {
    ServerAfter(w, step);
    hide Enabled, Next;
  }

  lemma OneRowInPlace(w: World, id: Id)
    requires Inv(w) && id in w.rows
    ensures InPlace(w, w.rows[id])
  {
  }

  lemma CachedIsUsed(w: World, mailbox: Mailbox)
    requires Recorded(w) && mailbox in w.cached
    ensures (mailbox, w.cached[mailbox]) in w.server.used
  {
  }

  lemma RowStaysInPlace(w: World, step: Step, id: Id)
    requires Inv(w) && Enabled(w, step) && KeepsOnlyItsOwn(w, step) && id in Next(w, step).rows
    ensures InPlace(Next(w, step), Next(w, step).rows[id])
  {
    if step.Move? && step.id == id {
      RowInPlaceAfterMove(w, step);
    } else if Positions(step, id) {
      RowInPlaceWhenPositioned(w, step, id);
    } else {
      RowUntouched(w, step, id);
      OneRowInPlace(w, id);
      if step.Reset? {
        RowInPlaceAfterReset(w, step, id);
      } else {
        RowInPlaceOtherwise(w, step, id);
      }
    }
  }

  lemma RowInPlaceAfterMove(w: World, step: Step)
    requires Inv(w) && step.Move? && Enabled(w, step)
    ensures InPlace(Next(w, step), Next(w, step).rows[step.id])
  {
    MoveHitsItsMessage(w, step);
    hide Refused, Inv, Recorded;
  }

  lemma RowInPlaceWhenPositioned(w: World, step: Step, id: Id)
    requires Inv(w) && Enabled(w, step) && !step.Move? && Positions(step, id) && id in Next(w, step).rows
    ensures InPlace(Next(w, step), Next(w, step).rows[id])
  {
    if step.AcceptMove? {
      OneRowInPlace(w, id);
    }
    hide Inv, Recorded;
  }

  lemma RowInPlaceOtherwise(w: World, step: Step, id: Id)
    requires Recorded(w) && Enabled(w, step) && !step.Reset? && !Positions(step, id) && id in Next(w, step).rows
    requires id in w.rows && InPlace(w, w.rows[id])
    ensures InPlace(Next(w, step), Next(w, step).rows[id])
  {
    var r := w.rows[id];
    RowUntouched(w, step, id);
    ServerAfter(w, step);
    CachedAfter(w, step, r.mailbox);
    if r.mailbox in w.cached { CachedIsUsed(w, r.mailbox); }
    if NamesItsOwn(w, r) && !(step.Rebuild? && step.mailbox == r.mailbox) {
      StillItsOwn(w, step, r);
    }
    hide Enabled, Next, Recorded;
  }

  lemma RowInPlaceAfterReset(w: World, step: Step, id: Id)
    requires step.Reset? && Enabled(w, step) && KeepsOnlyItsOwn(w, step) && id in Next(w, step).rows
    requires id in w.rows && InPlace(w, w.rows[id])
    ensures InPlace(Next(w, step), Next(w, step).rows[id])
  {
  }

  lemma OneEntryInPlace(w: World, e: Entry)
    requires Inv(w) && e in w.queue
    ensures EntryInPlace(w, e) && (e.frozen.Some? ==> (e.mailbox, e.frozen.value) in w.server.used)
  {
  }

  lemma EntryInPlaceWhenAccepted(w: World, id: Id)
    requires Enabled(w, Accept(id)) && InPlace(w, w.rows[id])
    ensures var r := w.rows[id];
            EntryInPlace(w, Entry(id, r.mailbox, r.uid, CachedOf(w, r.mailbox), r.denotes))
  {
  }

  lemma EntryStaysInPlace(w: World, step: Step, e: Entry)
    requires Inv(w) && Enabled(w, step) && e in Next(w, step).queue
    ensures EntryInPlace(Next(w, step), e)
  {
    if e in w.queue {
      OneEntryInPlace(w, e);
    } else {
      assert step.Accept?;
      OneRowInPlace(w, step.id);
      EntryInPlaceWhenAccepted(w, step.id);
    }
    ServerAfter(w, step);
    hide Enabled, Next, Inv;
  }

  lemma OneMoveInPlace(w: World, id: Id)
    requires Inv(w) && id in w.moves
    ensures w.moves[id].mailbox.Some? && MoveInPlace(w, id)
    ensures w.moves[id].generation.Some? ==>
              (w.moves[id].mailbox.value, w.moves[id].generation.value) in w.server.used
  {
  }

  lemma MoveInPlaceWhenPositioned(w: World, step: Step, id: Id)
    requires Inv(w) && Enabled(w, step) && id in Next(w, step).moves && Recorded(Next(w, step)) && Positions(step, id)
    ensures MoveInPlace(Next(w, step), id)
  {
    hide Refused;
    if step.AcceptMove? {
      OneRowInPlace(w, id);
    }
    hide Inv;
  }

  lemma MoveStaysInPlace(w: World, step: Step, id: Id)
    requires Inv(w) && Enabled(w, step) && id in Next(w, step).moves && Recorded(Next(w, step))
    ensures MoveInPlace(Next(w, step), id)
  {
    MovesAreNamed(w, step);
    if Positions(step, id) {
      MoveInPlaceWhenPositioned(w, step, id);
    } else {
      MoveUntouched(w, step, id);
      OneMoveInPlace(w, id);
      ServerAfter(w, step);
      if id in Next(w, step).rows {
        RowUntouched(w, step, id);
        if NamesItsOwn(w, w.rows[id]) && !(step.Rebuild? && step.mailbox == w.rows[id].mailbox) {
          StillItsOwn(w, step, w.rows[id]);
        }
      }
      hide Enabled, Next, Inv, Recorded;
    }
  }

  /** One step keeps the invariant exactly when it is no folder reset that keeps a foreign UID. */
  lemma InvKeptExactly(w: World, step: Step)
    requires Inv(w) && Enabled(w, step)
    ensures Inv(Next(w, step)) <==> KeepsOnlyItsOwn(w, step)
  {
    RecordedKept(w, step);
    if KeepsOnlyItsOwn(w, step) {
      hide Enabled, Next, Recorded, InPlace, EntryInPlace, MoveInPlace, KeepsOnlyItsOwn;
      forall id <- Next(w, step).rows ensures InPlace(Next(w, step), Next(w, step).rows[id]) {
        RowStaysInPlace(w, step, id);
      }
      forall e <- Next(w, step).queue ensures EntryInPlace(Next(w, step), e) {
        EntryStaysInPlace(w, step, e);
      }
      MovesAreNamed(w, step);
      forall id <- Next(w, step).moves ensures MoveInPlace(Next(w, step), id) {
        MoveStaysInPlace(w, step, id);
      }
    } else {
      ForeignUidBreaksIt(w, step);
    }
  }

  lemma MovesAreNamed(w: World, step: Step)
    requires Enabled(w, step) && Recorded(Next(w, step))
    ensures forall id <- Next(w, step).moves :: Next(w, step).moves[id].mailbox.Some?
  {
  }

  lemma ForeignUidBreaksIt(w: World, step: Step)
    requires Enabled(w, step) && !KeepsOnlyItsOwn(w, step)
    ensures !Inv(Next(w, step))
  {
    var id :| id in w.rows && w.rows[id].mailbox == step.mailbox && id !in step.dropped && w.rows[id].uid > 0
              && !NamesItsOwn(w, w.rows[id]);
    var n := Next(w, step);
    assert id in n.rows && n.rows[id] == w.rows[id] && !InPlace(n, n.rows[id]);
  }

  // ----- Whole runs -----

  ghost predicate Legal(w: World, run: seq<Step>)
    decreases |run|
  {
    run == [] || (Enabled(w, run[0]) && Legal(Next(w, run[0]), run[1..]))
  }

  function After(w: World, run: seq<Step>): World
    requires Legal(w, run)
    decreases |run|
  {
    if run == [] then w else After(Next(w, run[0]), run[1..])
  }

  /** No folder reset of the run keeps a row whose UID has become another message's. */
  ghost predicate ResetsKeepOnlyTheirOwn(w: World, run: seq<Step>)
    requires Legal(w, run)
    decreases |run|
  {
    run == [] || (KeepsOnlyItsOwn(w, run[0]) && ResetsKeepOnlyTheirOwn(Next(w, run[0]), run[1..]))
  }

  lemma {:induction false} InvOverRuns(w: World, run: seq<Step>)
    requires Inv(w) && Legal(w, run) && ResetsKeepOnlyTheirOwn(w, run)
    ensures Inv(After(w, run))
    decreases |run|
  {
    hide Inv, Enabled, Next, KeepsOnlyItsOwn;
    if run != [] {
      InvKeptExactly(w, run[0]);
      InvOverRuns(Next(w, run[0]), run[1..]);
    }
  }

  /** The message an entry is meant for: the accepted one while it sits where it was accepted, and otherwise
      the one its local id denotes since it was re-positioned. */
  function MeantFor(e: Entry, r: Row): Message {
    if EvidenceFor(e, r).Accepted? then e.message else r.denotes
  }

  /** What a push of `e` to this world does to a message is done to the one it is meant for. */
  predicate LandsRight(w: World, e: Entry) {
    e.id in w.rows && w.rows[e.id].mailbox in w.server.live && Push(w, e).Sent? && Push(w, e).place in w.server.bound
    ==> w.server.bound[Push(w, e).place] == MeantFor(e, w.rows[e.id])
  }

  /** A STORE sent from a world that keeps the invariant lands on the message it is meant for; a UID that is
      only a local placeholder lands on nothing. */
  lemma StoreLandsRight(w: World, e: Entry)
    requires Inv(w) && e in w.queue
    ensures LandsRight(w, e)
    ensures e.id in w.rows && w.rows[e.id].mailbox in w.server.live && Push(w, e).Sent? ==>
              (Push(w, e).place in w.server.bound <==> w.rows[e.id].uid > 0)
  {
    assert EntryInPlace(w, e);
    if e.id in w.rows {
      assert InPlace(w, w.rows[e.id]);
    }
  }

  /** Over every run whose resets keep only rows with their own UID: every STORE lands on the message it is
      meant for. */
  lemma StoresHitTheirMessage(w: World, run: seq<Step>, e: Entry)
    requires Inv(w) && Legal(w, run) && ResetsKeepOnlyTheirOwn(w, run) && e in After(w, run).queue
    ensures var end := After(w, run);
            && (e.id in end.rows ==> end.rows[e.id].mailbox in end.server.live)
            && (Push(end, e).Sent? ==>
                  var r, place := end.rows[e.id], Push(end, e).place;
                  && (place in end.server.bound <==> r.uid > 0)
                  && (r.uid > 0 ==> end.server.bound[place] == MeantFor(e, r)))
  {
    InvOverRuns(w, run);
    StoreLandsRight(After(w, run), e);
  }

  /** So the accepted message is hit exactly when the entry still sits where it was accepted or the
      local id still denotes that message. */
  lemma AcceptedMessageHitExactly(w: World, run: seq<Step>, e: Entry)
    requires Inv(w) && Legal(w, run) && ResetsKeepOnlyTheirOwn(w, run) && e in After(w, run).queue
    requires e.id in After(w, run).rows && After(w, run).rows[e.id].uid > 0
    requires After(w, run).rows[e.id].mailbox in After(w, run).server.live && Push(After(w, run), e).Sent?
    ensures var end := After(w, run);
            && Push(end, e).place in end.server.bound
            && (end.server.bound[Push(end, e).place] == e.message
                <==> EvidenceFor(e, end.rows[e.id]).Accepted? || end.rows[e.id].denotes == e.message)
  {
    StoresHitTheirMessage(w, run, e);
  }

  // ----- Exactly when every STORE lands right -----

  predicate ResetFree(run: seq<Step>) {
    forall step <- run :: !step.Reset?
  }

  ghost predicate AllLandRight(w: World) {
    forall e <- w.queue :: LandsRight(w, e)
  }

  /** Whatever happens next, short of another folder reset, every STORE lands right. */
  ghost predicate SafeFrom(w: World) {
    forall tail: seq<Step> | Legal(w, tail) && ResetFree(tail) :: AllLandRight(After(w, tail))
  }

  lemma {:induction false} NoResetsNoStrays(w: World, run: seq<Step>)
    requires Legal(w, run) && ResetFree(run)
    ensures ResetsKeepOnlyTheirOwn(w, run)
    decreases |run|
  {
    if run != [] {
      assert run[0] in run;
      NoResetsNoStrays(Next(w, run[0]), run[1..]);
    }
  }

  lemma InvIsSafe(w: World)
    requires Inv(w)
    ensures SafeFrom(w)
  {
    forall tail: seq<Step> | Legal(w, tail) && ResetFree(tail)
      ensures AllLandRight(After(w, tail))
    {
      NoResetsNoStrays(w, tail);
      InvOverRuns(w, tail);
      forall e <- After(w, tail).queue ensures LandsRight(After(w, tail), e) {
        StoreLandsRight(After(w, tail), e);
      }
    }
  }

  /** What a flag change accepted on a row does when the row's UID is another message's. */
  lemma AcceptedOnForeignUid(w: World, id: Id)
    requires id in w.rows && !w.rows[id].pending && w.rows[id].mailbox in w.server.live
    requires CachedOf(w, w.rows[id].mailbox) == Some(w.server.live[w.rows[id].mailbox])
    requires w.server.live[w.rows[id].mailbox] != ""
    requires var place := LivePlace(w, w.rows[id].mailbox, w.rows[id].uid);
             place in w.server.bound && w.server.bound[place] != w.rows[id].denotes
    ensures Legal(w, [Accept(id)]) && !AllLandRight(After(w, [Accept(id)]))
  {
    var r := w.rows[id];
    var n, e := Next(w, Accept(id)), Entry(id, r.mailbox, r.uid, CachedOf(w, r.mailbox), r.denotes);
    assert [Accept(id)][1..] == [] && After(w, [Accept(id)]) == n;
    assert e in n.queue && Push(n, e) == Sent(LivePlace(w, r.mailbox, r.uid)) && !LandsRight(n, e);
  }

  /** The tail that shows it: another message gets the UID if none has it yet, the move is given up, and a
      flag change is accepted on the row. */
  function Misdirection(w: World, id: Id): seq<Step>
    requires id in w.rows && w.rows[id].mailbox in w.server.live
  {
    var r := w.rows[id];
    (if LivePlace(w, r.mailbox, r.uid) in w.server.bound then [] else [Deliver(r.mailbox, r.uid, r.denotes + 1)])
    + [GiveUp(id), Accept(id)]
  }

  lemma OneStepFirst(w: World, step: Step, tail: seq<Step>)
    requires Enabled(w, step) && Legal(Next(w, step), tail)
    ensures Legal(w, [step] + tail) && After(w, [step] + tail) == After(Next(w, step), tail)
    ensures ResetsKeepOnlyTheirOwn(w, [step] + tail)
            <==> KeepsOnlyItsOwn(w, step) && ResetsKeepOnlyTheirOwn(Next(w, step), tail)
  {
    assert ([step] + tail)[1..] == tail;
    hide Enabled, Next, KeepsOnlyItsOwn;
  }

  /** The UID is another message's already. */
  lemma TakenUidIsHit(w: World, id: Id)
    requires id in w.rows && w.rows[id].mailbox in w.server.live
    requires CachedOf(w, w.rows[id].mailbox) == Some(w.server.live[w.rows[id].mailbox])
    requires w.server.live[w.rows[id].mailbox] != "" && !NamesItsOwn(w, w.rows[id])
    requires LivePlace(w, w.rows[id].mailbox, w.rows[id].uid) in w.server.bound
    ensures Legal(w, [GiveUp(id), Accept(id)]) && !AllLandRight(After(w, [GiveUp(id), Accept(id)]))
  {
    AcceptedOnForeignUid(Next(w, GiveUp(id)), id);
    hide AllLandRight;
    OneStepFirst(w, GiveUp(id), [Accept(id)]);
    assert [GiveUp(id)] + [Accept(id)] == [GiveUp(id), Accept(id)];
  }

  lemma ForeignUidIsHit(w: World, id: Id)
    requires id in w.rows && w.rows[id].mailbox in w.server.live && w.rows[id].uid > 0
    requires CachedOf(w, w.rows[id].mailbox) == Some(w.server.live[w.rows[id].mailbox])
    requires w.server.live[w.rows[id].mailbox] != "" && !NamesItsOwn(w, w.rows[id])
    ensures var tail := Misdirection(w, id);
            Legal(w, tail) && ResetFree(tail) && !AllLandRight(After(w, tail))
  {
    hide Legal, After, AllLandRight;
    var r, last := w.rows[id], [GiveUp(id), Accept(id)];
    if LivePlace(w, r.mailbox, r.uid) in w.server.bound {
      TakenUidIsHit(w, id);
      assert [] + last == last;
    } else {
      var first := Deliver(r.mailbox, r.uid, r.denotes + 1);
      TakenUidIsHit(Next(w, first), id);
      hide Next, LivePlace;
      OneStepFirst(w, first, last);
    }
  }

  /** A folder reset is safe exactly when it keeps only rows whose UID is still their own. */
  lemma ResetIsSafeExactly(w: World, step: Step)
    requires Inv(w) && step.Reset? && Enabled(w, step)
    ensures SafeFrom(Next(w, step)) <==> KeepsOnlyItsOwn(w, step)
  {
    var n := Next(w, step);
    if KeepsOnlyItsOwn(w, step) {
      InvKeptExactly(w, step);
      InvIsSafe(n);
    } else {
      var id :| id in w.rows && w.rows[id].mailbox == step.mailbox && id !in step.dropped && w.rows[id].uid > 0
                && !NamesItsOwn(w, w.rows[id]);
      ForeignUidIsHit(n, id);
      assert Legal(n, Misdirection(n, id));
    }
  }

  /** Safe at every point of a run. */
  ghost predicate SafeAlong(w: World, run: seq<Step>)
    requires Legal(w, run)
    decreases |run|
  {
    SafeFrom(w) && (run == [] || SafeAlong(Next(w, run[0]), run[1..]))
  }

  /** At every point of a run every STORE that can follow before the next folder reset lands right, exactly
      when no reset of the run keeps a row whose UID has become another message's. */
  lemma {:induction false} StoresLandRightExactly(w: World, run: seq<Step>)
    requires Inv(w) && Legal(w, run)
    ensures SafeAlong(w, run) <==> ResetsKeepOnlyTheirOwn(w, run)
    decreases |run|
  {
    hide Inv, Enabled, Next, KeepsOnlyItsOwn, SafeFrom;
    InvIsSafe(w);
    if run != [] {
      InvKeptExactly(w, run[0]);
      if run[0].Reset? {
        ResetIsSafeExactly(w, run[0]);
      } else {
        OnlyResetsStray(w, run[0]);
      }
      if KeepsOnlyItsOwn(w, run[0]) {
        StoresLandRightExactly(Next(w, run[0]), run[1..]);
      } else {
        NotSafeAlong(Next(w, run[0]), run[1..]);
      }
    }
  }

  lemma OnlyResetsStray(w: World, step: Step)
    requires !step.Reset?
    ensures KeepsOnlyItsOwn(w, step)
  {
  }

  lemma NotSafeAlong(w: World, run: seq<Step>)
    requires Legal(w, run) && !SafeFrom(w)
    ensures !SafeAlong(w, run)
  {
  }

  // ----- Where resets keep a foreign UID -----

  /** The folder reset keeps rows that wait for a move. Whatever the world, once the mailbox is rebuilt and
      another message gets the UID of such a row, the reset keeps a foreign UID... */
  lemma PendingRowSurvivesReset(w: World, id: Id, g: Generation, other: Message)
    requires Inv(w) && id in w.rows && w.rows[id].pending && w.rows[id].uid > 0 && other != w.rows[id].denotes
    requires Enabled(w, Rebuild(w.rows[id].mailbox, g))
    requires Place(w.rows[id].mailbox, g, w.rows[id].uid) !in w.server.bound
    requires w.rows[id].mailbox in w.cached
    ensures var r, reset := w.rows[id], Reset(w.rows[id].mailbox, Settled(w, w.rows[id].mailbox));
            var run := [Rebuild(r.mailbox, g), Deliver(r.mailbox, r.uid, other), reset];
            Legal(w, run) && !ResetsKeepOnlyTheirOwn(w, run)
  {
    var r := w.rows[id];
    StrayAfterRebuild(w, id, g, other, Settled(w, r.mailbox));
  }

  /** ...and so does the first sync of a folder that never was recorded, into which a message was moved. */
  lemma FirstSyncKeepsMovedInRow(w: World, id: Id, g: Generation, other: Message)
    requires Inv(w) && id in w.rows && w.rows[id].uid > 0 && other != w.rows[id].denotes
    requires Enabled(w, Rebuild(w.rows[id].mailbox, g))
    requires Place(w.rows[id].mailbox, g, w.rows[id].uid) !in w.server.bound
    requires w.rows[id].mailbox !in w.cached
    ensures var r := w.rows[id];
            var run := [Rebuild(r.mailbox, g), Deliver(r.mailbox, r.uid, other), Reset(r.mailbox, {})];
            Legal(w, run) && !ResetsKeepOnlyTheirOwn(w, run)
  {
    StrayAfterRebuild(w, id, g, other, {});
  }

  lemma OneStep(w: World, step: Step)
    requires Enabled(w, step)
    ensures Legal(w, [step]) && (ResetsKeepOnlyTheirOwn(w, [step]) <==> KeepsOnlyItsOwn(w, step))
    ensures After(w, [step]) == Next(w, step)
  {
    hide Enabled, Next, KeepsOnlyItsOwn;
    assert [step][1..] == [];
  }

  lemma RebuiltAndTaken(w: World, id: Id, g: Generation, other: Message)
    requires id in w.rows && w.rows[id].uid > 0 && Enabled(w, Rebuild(w.rows[id].mailbox, g))
    requires Place(w.rows[id].mailbox, g, w.rows[id].uid) !in w.server.bound
    ensures var r, w1 := w.rows[id], Next(w, Rebuild(w.rows[id].mailbox, g));
            && Enabled(w1, Deliver(r.mailbox, r.uid, other))
            && var w2 := Next(w1, Deliver(r.mailbox, r.uid, other));
            && w2.rows == w.rows && w2.cached == w.cached && w2.server.live == w.server.live[r.mailbox := g]
            && Place(r.mailbox, g, r.uid) in w2.server.bound && w2.server.bound[Place(r.mailbox, g, r.uid)] == other
  {
  }

  lemma StrayAfterRebuild(w: World, id: Id, g: Generation, other: Message, dropped: set<Id>)
    requires id in w.rows && id !in dropped && w.rows[id].uid > 0 && other != w.rows[id].denotes
    requires Enabled(w, Rebuild(w.rows[id].mailbox, g))
    requires Place(w.rows[id].mailbox, g, w.rows[id].uid) !in w.server.bound
    requires var mb := w.rows[id].mailbox;
             dropped == if mb in w.cached && w.cached[mb] != g then Settled(w, mb) else {}
    ensures var r := w.rows[id];
            var run := [Rebuild(r.mailbox, g), Deliver(r.mailbox, r.uid, other), Reset(r.mailbox, dropped)];
            Legal(w, run) && !ResetsKeepOnlyTheirOwn(w, run)
  {
    var r := w.rows[id];
    var rebuild, deliver, reset := Rebuild(r.mailbox, g), Deliver(r.mailbox, r.uid, other), Reset(r.mailbox, dropped);
    RebuiltAndTaken(w, id, g, other);
    var w1 := Next(w, rebuild);
    var w2 := Next(w1, deliver);
    hide Next, Legal, ResetsKeepOnlyTheirOwn;
    assert Enabled(w2, reset) && !KeepsOnlyItsOwn(w2, reset);
    hide Enabled, KeepsOnlyItsOwn;
    OneStep(w2, reset);
    OneStepFirst(w1, deliver, [reset]);
    OneStepFirst(w, rebuild, [deliver, reset]);
    assert [deliver] + [reset] == [deliver, reset];
    assert [rebuild] + [deliver, reset] == [rebuild, deliver, reset];
  }

  /** And so does the first sync of a folder that was missing from one listing and then came back: its
      rows that wait for a move outlive it, its recorded generation does not. */
  lemma ForgottenFolderKeepsPendingRow(w: World, id: Id, g: Generation, other: Message)
    requires Inv(w) && id in w.rows && w.rows[id].pending && w.rows[id].uid > 0 && other != w.rows[id].denotes
    requires Enabled(w, Rebuild(w.rows[id].mailbox, g))
    requires Place(w.rows[id].mailbox, g, w.rows[id].uid) !in w.server.bound
    ensures var r := w.rows[id];
            var run := [Rebuild(r.mailbox, g), Deliver(r.mailbox, r.uid, other), Reset(r.mailbox, {})];
            Legal(w, [Forget(r.mailbox)] + run) && !ResetsKeepOnlyTheirOwn(w, [Forget(r.mailbox)] + run)
  {
    var r := w.rows[id];
    var forgotten := Next(w, Forget(r.mailbox));
    StrayAfterRebuild(forgotten, id, g, other, {});
    hide Legal, ResetsKeepOnlyTheirOwn;
    OneStepFirst(w, Forget(r.mailbox),
      [Rebuild(r.mailbox, g), Deliver(r.mailbox, r.uid, other), Reset(r.mailbox, {})]);
  }

  /** One row of INBOX at UID 5. */
  function OneRowWorld(pending: bool, cached: map<Mailbox, Generation>): World {
    World(Server(map["INBOX" := "1"], map[Place("INBOX", "1", 5) := 1], {("INBOX", "1")}),
          map["row" := Row("INBOX", 5, pending, false, 1)], cached, {}, map[])
  }

  lemma OneRowInPlaceThere(pending: bool, cached: map<Mailbox, Generation>)
    requires cached == map[] || cached == map["INBOX" := "1"]
    ensures Inv(OneRowWorld(pending, cached))
  {
    assert NamesItsOwn(OneRowWorld(pending, cached), Row("INBOX", 5, pending, false, 1));
  }

  /** A sync of the rebuilt mailbox that keeps the row although its UID is another message's now. */
  lemma OneRowKept(w: World)
    requires "row" in w.rows && w.rows["row"].mailbox == "INBOX" && w.rows["row"].uid == 5 && w.rows["row"].denotes == 1
    requires "INBOX" in w.server.live && w.server.live["INBOX"] == "2"
    requires Place("INBOX", "2", 5) in w.server.bound && w.server.bound[Place("INBOX", "2", 5)] == 2
    requires Enabled(w, Reset("INBOX", {}))
    ensures var n := Next(w, Reset("INBOX", {}));
            Legal(n, [GiveUp("row"), Accept("row")]) && !AllLandRight(After(n, [GiveUp("row"), Accept("row")]))
  {
    var n := Next(w, Reset("INBOX", {}));
    assert !NamesItsOwn(n, n.rows["row"]);
    TakenUidIsHit(n, "row");
  }

  /** The smallest failing runs, of a row that waits for a move or one moved into a folder never recorded:
      the mailbox is rebuilt, its UID 5 goes to another message, the sync keeps the row, and a flag change
      accepted on it is stored on that message. */
  lemma OneRowIsMisdirected(pending: bool)
    ensures var w := OneRowWorld(pending, if pending then map["INBOX" := "1"] else map[]);
            var run := [Rebuild("INBOX", "2"), Deliver("INBOX", 5, 2), Reset("INBOX", {})];
            && Inv(w) && Legal(w, run) && !SafeAlong(w, run)
            && var n := After(w, run);
            Legal(n, [GiveUp("row"), Accept("row")]) && !AllLandRight(After(n, [GiveUp("row"), Accept("row")]))
  {
    var w := OneRowWorld(pending, if pending then map["INBOX" := "1"] else map[]);
    var rebuild, deliver, reset := Rebuild("INBOX", "2"), Deliver("INBOX", 5, 2), Reset("INBOX", {});
    OneRowInPlaceThere(pending, w.cached);
    assert Settled(w, "INBOX") == if pending then {} else {"row"};
    StrayAfterRebuild(w, "row", "2", 2, {});
    RebuiltAndTaken(w, "row", "2", 2);
    hide *;
    StoresLandRightExactly(w, [rebuild, deliver, reset]);
    var w1 := Next(w, rebuild);
    RunOfThree(w, rebuild, deliver, reset);
    OneRowKept(Next(w1, deliver));
  }

  lemma FirstOfRun(w: World, run: seq<Step>)
    requires run != [] && Legal(w, run)
    ensures Enabled(w, run[0]) && Legal(Next(w, run[0]), run[1..])
    ensures After(w, run) == After(Next(w, run[0]), run[1..])
  {
    hide Enabled, Next;
  }

  lemma RunOfThree(w: World, a: Step, b: Step, c: Step)
    requires Legal(w, [a, b, c])
    ensures Enabled(w, a) && Enabled(Next(w, a), b) && Enabled(Next(Next(w, a), b), c)
    ensures After(w, [a, b, c]) == Next(Next(Next(w, a), b), c)
  {
    hide *;
    assert [a, b, c][1..] == [b, c] && [b, c][1..] == [c];
    FirstOfRun(w, [a, b, c]);
    FirstOfRun(Next(w, a), [b, c]);
    FirstOfRun(Next(Next(w, a), b), [c]);
    OneStep(Next(Next(w, a), b), c);
  }

  /** An entry accepted in another folder and re-positioned onto such a row needs nothing further: the push
      judges it by the cache and sends it to the other message. */
  lemma RepositionedEntryIsMisdirected(w: World, step: Step, e: Entry)
    requires Inv(w) && step.Reset? && Enabled(w, step) && e in w.queue && e.id in w.rows && e.id !in step.dropped
    requires var r := w.rows[e.id];
             r.mailbox == step.mailbox && r.uid > 0 && !NamesItsOwn(w, r) && (e.mailbox != r.mailbox || e.uid != r.uid)
    ensures var n, r := Next(w, step), w.rows[e.id];
            && e in n.queue && e.id in n.rows && r.mailbox in n.server.live
            && Push(n, e) == Sent(LivePlace(n, r.mailbox, r.uid)) && MeantFor(e, r) == r.denotes
            && (LandsRight(n, e) <==> LivePlace(n, r.mailbox, r.uid) !in n.server.bound)
  {
  }

  // ----- What happens to a re-used local id -----

  /** And a derived id can come back for another message: after a rebuild the same mailbox and UID give
      the same local id. No reset keeps a foreign UID here, the entry stays queued, and where it was
      accepted it is refused... */
  lemma ReusedIdDenotesAnotherMessage(w: World, e: Entry, g: Generation, other: Message)
    requires Inv(w) && e in w.queue && e.id in w.rows && w.rows[e.id].mailbox == e.mailbox
            && w.rows[e.id].uid == e.uid > 0
    requires e.mailbox in w.cached && forall x <- w.rows | w.rows[x].mailbox == e.mailbox :: !w.rows[x].pending
    requires Enabled(w, Rebuild(e.mailbox, g)) && w.cached[e.mailbox] != g
            && Place(e.mailbox, g, e.uid) !in w.server.bound
    ensures var w1 := Next(w, Rebuild(e.mailbox, g));
            var w2 := Next(w1, Deliver(e.mailbox, e.uid, other));
            var reset := Reset(e.mailbox, Settled(w, e.mailbox));
            && Enabled(w2, reset) && KeepsOnlyItsOwn(w2, reset)
            && var w3 := Next(w2, reset);
            && Enabled(w3, Learn(e.id, e.mailbox, e.uid))
            && var w4 := Next(w3, Learn(e.id, e.mailbox, e.uid));
            && e in w4.queue && w4.rows[e.id].denotes == other && e.mailbox in w4.server.live && Push(w4, e) == Refusal
  {
  }

  /** ...but once the row is moved on, the entry follows it, whichever message it was accepted for. */
  lemma EntryFollowsItsRow(w: World, e: Entry, destination: Mailbox, uid: int)
    requires Inv(w) && e in w.queue && Enabled(w, Move(e.id, destination, uid))
    requires destination != e.mailbox && CachedOf(w, destination) == Some(w.server.live[destination])
    ensures var n := Next(w, Move(e.id, destination, uid));
            && e in n.queue && destination in n.server.live
            && Push(n, e) == Sent(LivePlace(w, destination, uid))
            && n.server.bound[LivePlace(w, destination, uid)] == w.rows[e.id].denotes
  {
    MoveHitsItsMessage(w, Move(e.id, destination, uid));
  }

  // ----- A queued move that froze no generation -----

  /** Queued on a row of a folder whose generation was never recorded, and still there. */
  predicate Unfrozen(w: World, id: Id) {
    && id in w.moves && w.moves[id].generation.None?
    && id in w.rows && w.rows[id].pending && w.moves[id].mailbox == Some(w.rows[id].mailbox)
  }

  /** The steps that take such a move out of the queue, or its row out of the cache. */
  predicate Releases(w: World, step: Step, id: Id) {
    match step
    case GiveUp(x) => x == id
    case LoseLocation(x, _) => x == id
    case Reset(_, dropped) => id in dropped
    case Retract(x) => x == id
    case Move(x, destination, uid) =>
      x != id && id in w.rows && w.rows[id].mailbox == destination && w.rows[id].uid == uid
    case _ => false
  }

  lemma UnfrozenStep(w: World, step: Step, id: Id)
    requires Recorded(w) && Unfrozen(w, id) && Enabled(w, step)
    ensures !(step.Move? && step.id == id)
    ensures Unfrozen(Next(w, step), id) || Releases(w, step, id)
  {
  }

  lemma OneStepEarlier(w: World, run: seq<Step>, i: nat)
    requires i < |run| && Enabled(w, run[0]) && Legal(Next(w, run[0]), run[1..][..i])
    ensures Legal(w, run[..i + 1]) && After(w, run[..i + 1]) == After(Next(w, run[0]), run[1..][..i])
  {
    hide Enabled, Next;
    assert run[..i + 1][1..] == run[1..][..i] && run[..i + 1][0] == run[0];
  }

  /** Whatever is delivered, rebuilt, synced or moved meanwhile, and however often the move is tried: a move
      that froze no generation is never sent before something has taken it out of the queue. */
  lemma {:induction false} UnfrozenMoveIsNeverSent(w: World, run: seq<Step>, id: Id)
    requires Recorded(w) && Unfrozen(w, id) && Legal(w, run)
    ensures forall j | 0 <= j < |run| && run[j].Move? && run[j].id == id ::
              exists i | 0 <= i < j :: Legal(w, run[..i]) && Releases(After(w, run[..i]), run[i], id)
    decreases |run|
  {
    if run != [] {
      var next := Next(w, run[0]);
      UnfrozenStep(w, run[0], id);
      RecordedKept(w, run[0]);
      hide Enabled, Next, Recorded, Unfrozen, Releases;
      forall j | 0 <= j < |run| && run[j].Move? && run[j].id == id
        ensures exists i | 0 <= i < j :: Legal(w, run[..i]) && Releases(After(w, run[..i]), run[i], id)
      {
        assert run[..0] == [] && Legal(w, run[..0]) && After(w, run[..0]) == w;
        if !Releases(w, run[0], id) {
          UnfrozenMoveIsNeverSent(next, run[1..], id);
          assert run[1..][j - 1] == run[j];
          var i :| 0 <= i < j - 1 && Legal(next, run[1..][..i])
                   && Releases(After(next, run[1..][..i]), run[1..][i], id);
          OneStepEarlier(w, run, i);
          assert run[1..][i] == run[i + 1];
        }
      }
    }
  }
}
