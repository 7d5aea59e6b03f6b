/** A flag push in the world of the runs: the check it makes is the one the runs reason about, and what it
    changes on the server are the messages its entries are meant for. */
module FlagsDelivery {
  import opened FlagsOutbox
  import opened MailboxGeneration
  import opened Optional
  import Runs = GenerationRuns

  function SlotOf(r: Runs.Row): Slot {
    Slot(r.mailbox, r.uid)
  }

  /** What a push reads of a world. */
  function ContextOf(w: Runs.World): Context {
    Context(map id <- w.rows :: SlotOf(w.rows[id]), w.server.live, w.cached)
  }

  /** A payload entry as acceptance sealed it. */
  predicate Seals(p: Entry, e: Runs.Entry) {
    p.id == e.id && p.frozen == Some(Slot(e.mailbox, e.uid)) && p.uidValidity == e.frozen
  }

  /** A payload of queued entries, each id once. UNIQUE(account_id, mailbox, uid) gives every row its slot. */
  ghost predicate PayloadOf(w: Runs.World, payload: seq<Entry>, queued: seq<Runs.Entry>) {
    && |payload| == |queued| && (forall i | 0 <= i < |payload| :: Seals(payload[i], queued[i]) && queued[i] in w.queue)
    && Unambiguous(payload, ContextOf(w))
  }

  /** The flags are those of the messages there are: every slot names one in the live generation. */
  ghost predicate FlagsOn(w: Runs.World, flags: Flags) {
    forall slot <- flags ::
      slot.mailbox in w.server.live && Runs.LivePlace(w, slot.mailbox, slot.uid) in w.server.bound
  }

  function MessageAt(w: Runs.World, slot: Slot): Runs.Message
    requires slot.mailbox in w.server.live && Runs.LivePlace(w, slot.mailbox, slot.uid) in w.server.bound
  {
    w.server.bound[Runs.LivePlace(w, slot.mailbox, slot.uid)]
  }

  /** The push lets an entry through exactly when the runs send it, and to the same place. */
  lemma SameVerdict(w: Runs.World, p: Entry, e: Runs.Entry)
    requires Runs.Inv(w) && Seals(p, e)
    ensures e.id in w.rows ==> w.rows[e.id].mailbox in w.server.live
    ensures Permitted(p, ContextOf(w)) <==> Runs.Push(w, e).Sent?
    ensures Permitted(p, ContextOf(w)) ==>
              var slot := ContextOf(w).positions[p.id];
              Runs.Push(w, e).place == Runs.LivePlace(w, slot.mailbox, slot.uid)
  {
  }

  /** The message a permitted entry reaches is the one it is meant for. */
  lemma ReachesWhatItMeans(w: Runs.World, p: Entry, e: Runs.Entry)
    requires Runs.Inv(w) && Seals(p, e) && e in w.queue && Permitted(p, ContextOf(w))
    ensures var slot := ContextOf(w).positions[p.id];
            && e.id in w.rows && slot.mailbox in w.server.live
            && (Runs.LivePlace(w, slot.mailbox, slot.uid) in w.server.bound ==>
                  MessageAt(w, slot) == Runs.MeantFor(e, w.rows[e.id]))
  {
    SameVerdict(w, p, e);
    Runs.StoreLandsRight(w, e);
  }

  /** Some entry of the payload is meant for the message. */
  ghost predicate Meant(w: Runs.World, payload: seq<Entry>, queued: seq<Runs.Entry>, message: Runs.Message)
    requires |payload| == |queued|
  {
    exists i | 0 <= i < |payload| ::
      && Permitted(payload[i], ContextOf(w)) && queued[i].id in w.rows
      && message == Runs.MeantFor(queued[i], w.rows[queued[i].id])
  }

  /** A push, interrupted or complete, changes flags only on messages its entries are meant for. */
  lemma PushChangesOnlyMeantMessages(w: Runs.World, payload: seq<Entry>, queued: seq<Runs.Entry>, before: Flags,
      after: Flags)
    requires Runs.Inv(w) && PayloadOf(w, payload, queued) && FlagsOn(w, before)
    requires Underway(before, after, payload, ContextOf(w))
    ensures forall slot <- before :: !Meant(w, payload, queued, MessageAt(w, slot)) ==> after[slot] == before[slot]
  {
    forall slot <- before | after[slot] != before[slot]
      ensures Meant(w, payload, queued, MessageAt(w, slot))
    {
      assert Targeted(slot, payload, ContextOf(w));
      var i :| 0 <= i < |payload| && Permitted(payload[i], ContextOf(w))
               && ContextOf(w).positions[payload[i].id] == slot;
      ReachesWhatItMeans(w, payload[i], queued[i]);
    }
  }

  /** A push that settles does to each of those messages what its entry asks for, and nothing else to any
      message, in every world a run of deliveries, rebuilds, syncs, moves and sends leads to. */
  lemma SettledPushDelivers(start: Runs.World, run: seq<Runs.Step>, payload: seq<Entry>, queued: seq<Runs.Entry>,
      before: Flags)
    requires Runs.Inv(start) && Runs.Legal(start, run) && Runs.ResetsKeepOnlyTheirOwn(start, run)
    requires PayloadOf(Runs.After(start, run), payload, queued) && FlagsOn(Runs.After(start, run), before)
    ensures var w := Runs.After(start, run);
            var after := OneByOne(before, payload, ContextOf(w));
            && after.Keys == before.Keys
            && (forall i | 0 <= i < |payload| && Permitted(payload[i], ContextOf(w)) ::
                  var slot := ContextOf(w).positions[payload[i].id];
                  slot in before ==>
                    && after[slot] == Delta(before[slot], payload[i])
                    && queued[i].id in w.rows && MessageAt(w, slot) == Runs.MeantFor(queued[i], w.rows[queued[i].id]))
            && (forall slot <- before :: !Meant(w, payload, queued, MessageAt(w, slot)) ==> after[slot] == before[slot])
  {
    Runs.InvOverRuns(start, run);
    var w := Runs.After(start, run);
    OneByOneCompletes(before, payload, ContextOf(w));
    var after := OneByOne(before, payload, ContextOf(w));
    CompleteIsUnderway(before, after, payload, ContextOf(w));
    PushChangesOnlyMeantMessages(w, payload, queued, before, after);
    forall i | 0 <= i < |payload| && Permitted(payload[i], ContextOf(w))
               && ContextOf(w).positions[payload[i].id] in before
      ensures var slot := ContextOf(w).positions[payload[i].id];
              && after[slot] == Delta(before[slot], payload[i])
              && queued[i].id in w.rows && MessageAt(w, slot) == Runs.MeantFor(queued[i], w.rows[queued[i].id])
    {
      assert payload[i] in payload;
      ReachesWhatItMeans(w, payload[i], queued[i]);
    }
  }

  lemma CompleteIsUnderway(before: Flags, after: Flags, entries: seq<Entry>, c: Context)
    requires Completed(before, after, entries, c)
    ensures Underway(before, after, entries, c)
  {
  }
}
