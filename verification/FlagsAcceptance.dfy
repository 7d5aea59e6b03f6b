/** The acceptance half of a flag change (`prepareLocalFlags` of flags-outbox.ts): the delta that is
    queued and the target that is written agree. */
module FlagsAcceptance {
  import opened FlagsOutbox
  import opened MailboxGeneration
  import opened Optional

  /** A row as the preparation reads it: its stored flags and its pending destination, if any. */
  datatype LocalRow = LocalRow(id: Id, flags: seq<Flag>, destination: string)

  /** A patch names flags and the values they are to have, each flag once. */
  type Patch = seq<(Flag, bool)>

  datatype Prepared = Prepared(row: LocalRow, next: set<Flag>, add: seq<Flag>, remove: seq<Flag>)

  ghost predicate PatchOf(patch: Patch) {
    forall i, j | 0 <= i < j < |patch| :: patch[i].0 != patch[j].0
  }

  /** The target: the patched flags as asked, the others as they were. */
  ghost predicate Patches(flags: set<Flag>, patch: Patch, next: set<Flag>) {
    forall f :: f in next <==> if exists v :: (f, v) in patch then (f, true) in patch else f in flags
  }

  /** The delta adds only what is missing, removes only what is there, and leads to the target. */
  ghost predicate Reaches(row: LocalRow, patch: Patch, p: Prepared) {
    && p.row == row && Patches(Names(row.flags), patch, p.next)
    && Names(row.flags) + Names(p.add) - Names(p.remove) == p.next
    && Names(p.add) !! Names(row.flags) && Names(p.remove) <= Names(row.flags)
  }

  /** `moveActionBlockedError`: whether the move is pending or its location unverified, a destination
      blocks. */
  predicate Blocked(row: LocalRow) {
    row.destination != ""
  }

  method Prepare(row: LocalRow, patch: Patch) returns (p: Prepared)
    requires PatchOf(patch)
    ensures Reaches(row, patch, p)
  {
    var current: set<Flag> := set f <- row.flags;
    var next, add, remove := current, [], [];
    for i := 0 to |patch|
      invariant next == current + Names(add) - Names(remove)
      invariant Names(add) !! current && Names(remove) <= current
      invariant forall f ::
          f in next <==> if exists v :: (f, v) in patch[..i] then (f, true) in patch[..i] else f in current
      invariant forall f | f in Names(add) + Names(remove) :: exists v :: (f, v) in patch[..i]
    {
      var (flag, value) := patch[i];
      assert patch[..i + 1] == patch[..i] + [patch[i]];
      assert forall v :: (flag, v) !in patch[..i];
      if (flag in current) != value {
        if value {
          next, add := next + {flag}, add + [flag];
        } else {
          next, remove := next - {flag}, remove + [flag];
        }
      }
    }
    assert patch[..|patch|] == patch;
    p := Prepared(row, next, add, remove);
  }

  /** Every known, unblocked id is prepared once, every blocked one reported, unknown ones skipped. */
  method PrepareLocalFlags(rows: map<Id, LocalRow>, ids: seq<Id>, patch: Patch)
      returns (prepared: seq<Prepared>, blocked: set<Id>)
    requires PatchOf(patch) && forall id <- rows :: rows[id].id == id
    ensures forall p <- prepared ::
            p.row.id in ids && p.row.id in rows && !Blocked(p.row) && Reaches(rows[p.row.id], patch, p)
    ensures patch != [] ==>
              forall id <- ids | id in rows && !Blocked(rows[id]) :: exists p <- prepared :: p.row.id == id
    ensures blocked == if patch == [] then {} else set id <- ids | id in rows && Blocked(rows[id])
    ensures forall i, j | 0 <= i < j < |prepared| :: prepared[i].row.id != prepared[j].row.id
  {
    prepared, blocked := [], {};
    if ids == [] || patch == [] {
      return;
    }
    var visited: set<Id> := {};
    for i := 0 to |ids|
      invariant visited == set id <- ids[..i]
      invariant forall p <- prepared ::
              p.row.id in visited && p.row.id in rows && !Blocked(p.row) && Reaches(rows[p.row.id], patch, p)
      invariant forall id <- visited | id in rows && !Blocked(rows[id]) :: exists p <- prepared :: p.row.id == id
      invariant blocked == set id <- visited | id in rows && Blocked(rows[id])
      invariant forall i, j | 0 <= i < j < |prepared| :: prepared[i].row.id != prepared[j].row.id
    {
      var id := ids[i];
      assert ids[..i + 1] == ids[..i] + [id];
      if id !in visited && id in rows {
        if Blocked(rows[id]) {
          blocked := blocked + {id};
        } else {
          var p := Prepare(rows[id], patch);
          assert p in prepared + [p] && forall q <- prepared :: q in prepared + [p];
          prepared := prepared + [p];
        }
      }
      visited := visited + {id};
    }
    assert ids[..|ids|] == ids;
  }

  /** A server whose flags are the row's base ends where the local target is, after any number of
      interrupted pushes of the delta and a complete one that permits it, wherever the message moved. */
  lemma AcceptedTargetIsReached(row: LocalRow, patch: Patch, p: Prepared, entries: seq<Entry>, ids: set<Id>,
      attempts: seq<Attempt>, e: Entry)
    requires Reaches(row, patch, p) && Series(attempts, entries, ids) && attempts != []
    requires var last := attempts[|attempts| - 1];
             last.after == OneByOne(last.before, entries, last.c) && Permitted(e, last.c)
    requires e in entries && e.add == p.add && e.remove == p.remove
    requires FlagsBefore(attempts[0], e.id) == Names(row.flags)
    ensures FlagsAfter(attempts[|attempts| - 1], e.id) == p.next
  {
    hide Underway, Permitted;
    RetriesAcrossChanges(attempts, entries, ids);
  }
}
