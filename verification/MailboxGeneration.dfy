/** The UIDVALIDITY comparison that makes a cached UID trustworthy (mailbox-generation.ts), and what it
    protects over whole runs.

    Section 2.3.1.1 of RFC 3501: a UID never changes its message within one UIDVALIDITY value, and a
    rebuilt mailbox gets a value it never had before. */
module MailboxGeneration {
  import opened Optional
  import opened Sequences

  type Mailbox = string
  type Id = string
  type Generation = string

  /** How a caller knows the generation of a cached UID. */
  datatype Evidence = Accepted(value: Option<Generation>) | Current

  /** JavaScript truthiness of an optional text. */
  predicate Truthy(g: Option<Generation>) {
    g.Some? && g.value != ""
  }

  predicate SameGeneration(expected: Option<Generation>, live: Option<Generation>) {
    Truthy(expected) && Truthy(live) && expected == live
  }

  predicate AllowsWrite(evidence: Evidence, live: Option<Generation>, cached: Option<Generation>) {
    if !Truthy(live) then true
    else match evidence
      case Accepted(value) => Truthy(value) && SameGeneration(value, live)
      case Current => SameGeneration(cached, live)
  }

  // ----- Moves: which entries a generation refuses -----

  datatype Guarded = Guarded(id: Id, mailbox: Mailbox, origin: Option<Generation>)
  datatype AcceptedMove = AcceptedMove(mailbox: Option<Mailbox>, generation: Option<Generation>)

  function MoveEvidence(e: Guarded, accepted: map<Id, AcceptedMove>): Evidence {
    if e.id !in accepted then Current
    else
      var frozen := accepted[e.id];
      if frozen.mailbox.Some? && frozen.mailbox.value != e.mailbox then Current
      else Accepted(frozen.generation)
  }

  predicate Refused(e: Guarded, live: Option<Generation>, accepted: map<Id, AcceptedMove>) {
    !AllowsWrite(MoveEvidence(e, accepted), live, e.origin)
  }

  function RefusedBy(live: Option<Generation>, accepted: map<Id, AcceptedMove>): Guarded -> bool {
    e => Refused(e, live, accepted)
  }

  function AllowedBy(live: Option<Generation>, accepted: map<Id, AcceptedMove>): Guarded -> bool {
    e => !Refused(e, live, accepted)
  }

  /** The array a caller hands over, emptied and refilled in place. */
  class Selection {
    var entries: seq<Guarded>

    constructor (entries: seq<Guarded>)
      ensures this.entries == entries
    {
      this.entries := entries;
    }

    method PartitionRefused(live: Option<Generation>, accepted: map<Id, AcceptedMove>) returns (refused: seq<Guarded>)
      modifies this
      ensures refused == Filter(old(entries), RefusedBy(live, accepted))
      ensures entries == Filter(old(entries), AllowedBy(live, accepted))
    {
      refused := [];
      var allowed := [];
      for i := 0 to |entries|
        invariant entries == old(entries)
        invariant refused == Filter(entries[..i], RefusedBy(live, accepted))
        invariant allowed == Filter(entries[..i], AllowedBy(live, accepted))
      {
        FilterPrefix(entries, i, RefusedBy(live, accepted));
        FilterPrefix(entries, i, AllowedBy(live, accepted));
        if Refused(entries[i], live, accepted) {
          refused := refused + [entries[i]];
        } else {
          allowed := allowed + [entries[i]];
        }
      }
      assert entries[..|entries|] == entries;
      entries := allowed;
    }
  }

  /** The partition loses nothing and mixes nothing: together the two parts are the selection, every
      refused entry is refused and every kept one allowed. */
  lemma PartitionIsExact(entries: seq<Guarded>, live: Option<Generation>, accepted: map<Id, AcceptedMove>)
    ensures var no, yes := Filter(entries, RefusedBy(live, accepted)), Filter(entries, AllowedBy(live, accepted));
            && multiset(no) + multiset(yes) == multiset(entries)
            && (forall e <- no :: Refused(e, live, accepted)) && (forall e <- yes :: !Refused(e, live, accepted))
  {
    FilterPartition(entries, RefusedBy(live, accepted), AllowedBy(live, accepted));
    FilterMembers(entries, RefusedBy(live, accepted));
    FilterMembers(entries, AllowedBy(live, accepted));
  }
}
