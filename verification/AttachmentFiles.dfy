/** Crash-safe replacement of one outbound attachment's file (outbound-attachments.ts), and the order
    in which a start runs the migration and the cleanup (runtime.ts).

    A stored file is modelled by what opening it yields; every file action and the row update is one
    step, and a start may die before any of them. */
module AttachmentFiles {
  import opened CrashTrace
  import opened Optional

  type Content = seq<bv8>

  /** Torn is a partly written file, which nothing opens. */
  datatype File = Absent | Torn | Plain(content: Content) | Sealed(content: Content)

  /** The stored file, its `.tmp` and `.migration-backup` siblings, and the row's `crypto_version`. */
  datatype Disk = Disk(main: File, tmp: File, backup: File, version: nat)

  /** `assertStoredFile`'s size test and `decryptAttachmentContent`, for a row recording `size`. */
  function Opened(f: File, version: nat, size: nat): Option<Content> {
    match f
    case Plain(c) => if version == 0 && |c| == size then Some(c) else None
    case Sealed(c) => if |c| == size then Some(c) else None
    case _ => None
  }

  /** The rename with which `assertStoredFile` begins. */
  function Restored(d: Disk): Disk {
    if d.main.Absent? && !d.backup.Absent? then d.(main := d.backup, backup := Absent) else d
  }

  /** What the send path would read from the disk as it stands. */
  function Read(d: Disk, size: nat): Option<Content> {
    Opened(Restored(d).main, d.version, size)
  }

  // ----- The specification: the disks a start goes through -----

  function RestoreTrace(d: Disk): seq<Disk> {
    if Restored(d) == d then [] else [Restored(d)]
  }

  /** The first half of `writeFileAtomically`: clear leftovers, then stage the payload. */
  function StageTrace(d: Disk, payload: File): seq<Disk> {
    var clean := d.(tmp := Absent);
    var ready := if clean.main.Absent? then Restored(clean) else clean.(backup := Absent);
    [clean, ready, ready.(tmp := Torn), ready.(tmp := payload)]
  }

  /** The second half: park the old file, install the new one, drop the old. When the installing
      rename fails, the parking is undone and the error rethrown. */
  function InstallTrace(d: Disk, installFails: bool): seq<Disk> {
    var parked := d.(main := Absent, backup := d.main);
    [parked] +
    if installFails then [d, d.(tmp := Absent)]
    else [parked.(main := d.tmp, tmp := Absent), parked.(main := d.tmp, tmp := Absent, backup := Absent)]
  }

  function ReplaceTrace(d: Disk, payload: File, installFails: bool): seq<Disk> {
    var stage := StageTrace(d, payload);
    stage + InstallTrace(stage[3], installFails)
  }

  function Rewritten(d: Disk, installFails: bool): seq<Disk>
    requires d.main.Plain? || d.main.Sealed?
  {
    if d.main.Plain? then ReplaceTrace(d, Sealed(d.main.content), installFails)
    else [d.(backup := Absent)]
  }

  /** The row records that its file is sealed. */
  function RecordTrace(d: Disk): seq<Disk> {
    if d.main.Sealed? && d.version != 1 then [d.(version := 1)] else []
  }

  /** What follows the restoring rename; a file that does not open leaves everything as it is. */
  function ReadyTrace(ready: Disk, size: nat, installFails: bool): seq<Disk> {
    if Opened(ready.main, ready.version, size).None? then []
    else
      var rewritten := Rewritten(ready, installFails);
      rewritten + RecordTrace(Last(ready, rewritten))
  }

  /** `migrateStoredAttachment` on one row. */
  function MigrateTrace(d: Disk, size: nat, installFails: bool): seq<Disk> {
    RestoreTrace(d) + ReadyTrace(Restored(d), size, installFails)
  }

  /** The part of `cleanupExpiredOutboundAttachments` that meets this attachment's files. */
  function CleanupTrace(d: Disk): seq<Disk> {
    [d.(backup := Absent), d.(backup := Absent, tmp := Absent)]
  }

  function Last(d: Disk, trace: seq<Disk>): Disk {
    At(d, trace, |trace|)
  }

  /** The two orders a start could run them in; the second is the one the runtime has. */
  datatype Order = MigrationFirst | CleanupFirst

  function StartTrace(d: Disk, size: nat, order: Order, installFails: bool): seq<Disk> {
    match order
    case MigrationFirst =>
      var t := MigrateTrace(d, size, installFails);
      t + CleanupTrace(Last(d, t))
    case CleanupFirst =>
      CleanupTrace(d) + MigrateTrace(Last(d, CleanupTrace(d)), size, installFails)
  }

  // ----- The code -----

  class StoredAttachment {
    var main: File
    var tmp: File
    var backup: File
    var version: nat
    var lives: nat

    function Snapshot(): Disk
      reads this
    {
      Disk(main, tmp, backup, version)
    }

    constructor (d: Disk, lives: nat)
      ensures Snapshot() == d && this.lives == lives
    {
      main, tmp, backup, version := d.main, d.tmp, d.backup, d.version;
      this.lives := lives;
    }

    method Stage(payload: File) returns (died: bool)
      requires !main.Absent? || !backup.Absent?
      modifies this
      ensures Progress(Snapshot(), lives, died) ==
              Play(old(Snapshot()), StageTrace(old(Snapshot()), payload), old(lives))
    {
      died := true;
      if lives == 0 { return; }
      lives, tmp := lives - 1, Absent;
      if lives == 0 { return; }
      lives := lives - 1;
      if !backup.Absent? {
        if main.Absent? {
          main, backup := backup, Absent;
        } else {
          backup := Absent;
        }
      }
      if lives == 0 { return; }
      lives, tmp := lives - 1, Torn;
      if lives == 0 { return; }
      lives, tmp := lives - 1, payload;
      died := false;
    }

    method Install(installFails: bool) returns (died: bool)
      requires backup.Absent?
      modifies this
      ensures Progress(Snapshot(), lives, died) ==
              Play(old(Snapshot()), InstallTrace(old(Snapshot()), installFails), old(lives))
    {
      died := true;
      if lives == 0 { return; }
      lives, main, backup := lives - 1, Absent, main;
      if lives == 0 { return; }
      lives := lives - 1;
      if installFails {
        main, backup := backup, Absent;
        if lives == 0 { return; }
        lives, tmp := lives - 1, Absent;
        return false;
      }
      main, tmp := tmp, Absent;
      if lives == 0 { return; }
      lives, backup := lives - 1, Absent;
      died := false;
    }

    method WriteFileAtomically(payload: File, installFails: bool) returns (died: bool)
      requires !main.Absent? || !backup.Absent?
      modifies this
      ensures Progress(Snapshot(), lives, died) ==
              Play(old(Snapshot()), ReplaceTrace(old(Snapshot()), payload, installFails), old(lives))
    {
      ghost var d, stage := Snapshot(), StageTrace(Snapshot(), payload);
      PlayConcat(d, stage, InstallTrace(stage[3], installFails), lives);
      died := Stage(payload);
      if !died {
        died := Install(installFails);
      }
    }

    /** The restoring rename. */
    method Restore() returns (died: bool)
      modifies this
      ensures Progress(Snapshot(), lives, died) == Play(old(Snapshot()), RestoreTrace(old(Snapshot())), old(lives))
    {
      if main.Absent? && !backup.Absent? {
        if lives == 0 { return true; }
        lives, main, backup := lives - 1, backup, Absent;
      }
      died := false;
    }

    /** The replacement of a file that opens, or the removal of its backup if it is sealed already. */
    method Rewrite(installFails: bool) returns (died: bool)
      requires main.Plain? || main.Sealed?
      modifies this
      ensures Progress(Snapshot(), lives, died) ==
              Play(old(Snapshot()), Rewritten(old(Snapshot()), installFails), old(lives))
    {
      if main.Plain? {
        died := WriteFileAtomically(Sealed(main.content), installFails);
        return;
      }
      if lives == 0 { return true; }
      lives, backup := lives - 1, Absent;
      died := false;
    }

    method MigrateReady(size: nat, installFails: bool) returns (died: bool)
      modifies this
      ensures Progress(Snapshot(), lives, died) ==
              Play(old(Snapshot()), ReadyTrace(old(Snapshot()), size, installFails), old(lives))
    {
      if Opened(main, version, size).None? {
        return false;
      }
      ghost var d, rewritten := Snapshot(), Rewritten(Snapshot(), installFails);
      PlayConcat(d, rewritten, RecordTrace(Last(d, rewritten)), lives);
      died := Rewrite(installFails);
      if died || !main.Sealed? || version == 1 { return; }
      if lives == 0 { return true; }
      lives, version := lives - 1, 1;
    }

    method Migrate(size: nat, installFails: bool) returns (died: bool)
      modifies this
      ensures Progress(Snapshot(), lives, died) ==
              Play(old(Snapshot()), MigrateTrace(old(Snapshot()), size, installFails), old(lives))
    {
      PlayConcat(Snapshot(), RestoreTrace(Snapshot()), ReadyTrace(Restored(Snapshot()), size, installFails), lives);
      died := Restore();
      if !died {
        died := MigrateReady(size, installFails);
      }
    }

    method Cleanup() returns (died: bool)
      modifies this
      ensures Progress(Snapshot(), lives, died) == Play(old(Snapshot()), CleanupTrace(old(Snapshot())), old(lives))
    {
      if lives == 0 { return true; }
      lives, backup := lives - 1, Absent;
      if lives == 0 { return true; }
      lives, tmp := lives - 1, Absent;
      died := false;
    }

    method Start(size: nat, order: Order, installFails: bool) returns (died: bool)
      modifies this
      ensures Progress(Snapshot(), lives, died) ==
              Play(old(Snapshot()), StartTrace(old(Snapshot()), size, order, installFails), old(lives))
    {
      ghost var d := Snapshot();
      match order {
        case MigrationFirst =>
          ghost var t := MigrateTrace(d, size, installFails);
          PlayConcat(d, t, CleanupTrace(Last(d, t)), lives);
          died := Migrate(size, installFails);
          if died { return; }
          died := Cleanup();
        case CleanupFirst =>
          ghost var t := CleanupTrace(d);
          PlayConcat(d, t, MigrateTrace(Last(d, t), size, installFails), lives);
          died := Cleanup();
          if died { return; }
          died := Migrate(size, installFails);
      }
    }
  }

  // ----- What survives -----

  /** A crash at any step of the migration, the replacement included, leaves an attachment that opens
      with unchanged plaintext; a migration that neither dies nor fails leaves only a sealed file. */
  lemma MigrationKeepsContent(d: Disk, content: Content, installFails: bool, lives: nat)
    requires Read(d, |content|) == Some(content)
    ensures var p := Play(d, MigrateTrace(d, |content|, installFails), lives);
            && Read(p.disk, |content|) == Some(content)
            && (!p.died ==> !p.disk.main.Absent?)
            && (!p.died && !installFails ==>
                  p.disk == Disk(Sealed(content), if Restored(d).main.Plain? then Absent else d.tmp, Absent, 1))
  {
    assert forall x <- MigrateTrace(d, |content|, installFails) :: Read(x, |content|) == Some(content);
  }

  /** One start; `lives` counts the file actions it completes before it dies. */
  datatype Start = Start(lives: nat, installFails: bool)

  function AfterStarts(d: Disk, size: nat, order: Order, starts: seq<Start>): Disk
    decreases |starts|
  {
    if starts == [] then d
    else
      var next := Play(d, StartTrace(d, size, order, starts[0].installFails), starts[0].lives).disk;
      AfterStarts(next, size, order, starts[1..])
  }

  lemma MigrationFirstStart(d: Disk, content: Content, installFails: bool, lives: nat)
    requires Read(d, |content|) == Some(content)
    ensures var next := Play(d, StartTrace(d, |content|, MigrationFirst, installFails), lives).disk;
            Read(next, |content|) == Some(content)
  {
    var t := MigrateTrace(d, |content|, installFails);
    MigrationKeepsContent(d, content, installFails, lives);
    PlayConcat(d, t, CleanupTrace(Last(d, t)), lives);
    MigrationKeepsContent(d, content, installFails, |t|);
  }

  /** Run before the cleanup, the migration makes the attachment survive every run of starts. */
  lemma {:induction false} MigrationFirstSurvives(d: Disk, content: Content, starts: seq<Start>)
    requires Read(d, |content|) == Some(content)
    ensures Read(AfterStarts(d, |content|, MigrationFirst, starts), |content|) == Some(content)
    decreases |starts|
  {
    if starts != [] {
      MigrationFirstStart(d, content, starts[0].installFails, starts[0].lives);
      var next := Play(d, StartTrace(d, |content|, MigrationFirst, starts[0].installFails), starts[0].lives).disk;
      MigrationFirstSurvives(next, content, starts[1..]);
    }
  }

  /** Run after it, as the runtime does, the attachment survives a start exactly when its file is under
      its own name at that start: the cleanup deletes the backup whether or not it is the last copy. */
  lemma CleanupFirstKeepsExactlyPresentFiles(d: Disk, content: Content, installFails: bool, lives: nat)
    requires Read(d, |content|) == Some(content) && lives > 0
    ensures Read(Play(d, StartTrace(d, |content|, CleanupFirst, installFails), lives).disk, |content|) == Some(content)
            <==> !d.main.Absent?
    ensures d.main.Absent? ==>
              Read(Play(d, StartTrace(d, |content|, CleanupFirst, installFails), lives).disk, |content|) == None
  {
    var c := Last(d, CleanupTrace(d));
    PlayConcat(d, CleanupTrace(d), MigrateTrace(c, |content|, installFails), lives);
    if d.main.Absent? {
      assert MigrateTrace(c, |content|, installFails) == [];
    } else if lives >= 2 {
      MigrationKeepsContent(c, content, installFails, lives - 2);
    }
  }

  /** What a start in the runtime's order makes of a file that is present: its seventh action parks a
      plaintext file, its eighth installs the sealed one or puts the old one back. */
  function MainAfter(main: File, start: Start): File {
    if !main.Plain? || start.lives < 7 then main
    else if start.lives == 7 then Absent
    else if start.installFails then main
    else Sealed(main.content)
  }

  lemma PresentStart(d: Disk, content: Content, start: Start)
    requires Read(d, |content|) == Some(content) && !d.main.Absent?
    ensures var next := Play(d, StartTrace(d, |content|, CleanupFirst, start.installFails), start.lives).disk;
            Read(next, |content|) == Some(content) && next.main == MainAfter(d.main, start)
  {
    var c := Last(d, CleanupTrace(d));
    PlayConcat(d, CleanupTrace(d), MigrateTrace(c, |content|, start.installFails), start.lives);
    if start.lives >= 2 {
      MigrationKeepsContent(c, content, start.installFails, start.lives - 2);
    }
  }

  /** The starts that lose an attachment whose file stands at `main`: one that dies with the plaintext
      parked, or that state found on the disk, followed by one that gets as far as its first removal. */
  predicate Loses(main: File, starts: seq<Start>)
    decreases |starts|
  {
    starts != [] &&
    if main.Absent? then starts[0].lives > 0 || Loses(main, starts[1..])
    else Loses(MainAfter(main, starts[0]), starts[1..])
  }

  /** Over any run of starts in the runtime's order the attachment survives exactly when the starts do
      not lose it, and what they lose is gone. */
  lemma {:induction false} CleanupFirstSurvivesExactly(d: Disk, content: Content, starts: seq<Start>)
    requires Read(d, |content|) == Some(content)
    ensures Read(AfterStarts(d, |content|, CleanupFirst, starts), |content|)
            == if Loses(d.main, starts) then None else Some(content)
    decreases |starts|
  {
    if starts != [] {
      var start := starts[0];
      var next := Play(d, StartTrace(d, |content|, CleanupFirst, start.installFails), start.lives).disk;
      if !d.main.Absent? {
        PresentStart(d, content, start);
        CleanupFirstSurvivesExactly(next, content, starts[1..]);
      } else if start.lives == 0 {
        CleanupFirstSurvivesExactly(d, content, starts[1..]);
      } else {
        GoneStays(next, |content|, starts[1..]);
      }
    }
  }

  lemma {:induction false} GoneStays(d: Disk, size: nat, starts: seq<Start>)
    requires d.main.Absent? && d.backup.Absent?
    ensures Read(AfterStarts(d, size, CleanupFirst, starts), size) == None
    decreases |starts|
  {
    if starts != [] {
      var next := Play(d, StartTrace(d, size, CleanupFirst, starts[0].installFails), starts[0].lives).disk;
      GoneStays(next, size, starts[1..]);
    }
  }

  /** And a start can leave it elsewhere: dying between the two renames of the replacement, every
      attachment a previous version stored in plaintext is lost by the next start. */
  lemma CrashBetweenRenamesLosesAttachment(content: Content, next: Start)
    requires next.lives > 0
    ensures var d := Disk(Plain(content), Absent, Absent, 0);
            && AfterStarts(d, |content|, CleanupFirst, [Start(7, false)])
               == Disk(Absent, Sealed(content), Plain(content), 0)
            && Read(AfterStarts(d, |content|, CleanupFirst, [Start(7, false), next]), |content|) == None
  {
    var d := Disk(Plain(content), Absent, Absent, 0);
    var parked := Disk(Absent, Sealed(content), Plain(content), 0);
    ParkedAfterSeven(content);
    OneStart(d, |content|, [Start(7, false)]);
    assert [Start(7, false), next][1..] == [next];
    OneStart(parked, |content|, [next]);
    CleanupFirstKeepsExactlyPresentFiles(parked, content, next.installFails, next.lives);
  }

  lemma ParkedAfterSeven(content: Content)
    ensures var d := Disk(Plain(content), Absent, Absent, 0);
            Play(d, StartTrace(d, |content|, CleanupFirst, false), 7).disk
            == Disk(Absent, Sealed(content), Plain(content), 0)
  {
    var d := Disk(Plain(content), Absent, Absent, 0);
    var stage := StageTrace(d, Sealed(content));
    var install := InstallTrace(stage[3], false);
    assert Rewritten(d, false) == stage + install;
    assert MigrateTrace(d, |content|, false)[4] == install[0];
    assert StartTrace(d, |content|, CleanupFirst, false)[6] == install[0];
  }

  lemma OneStart(d: Disk, size: nat, starts: seq<Start>)
    requires |starts| == 1
    ensures AfterStarts(d, size, CleanupFirst, starts) ==
            Play(d, StartTrace(d, size, CleanupFirst, starts[0].installFails), starts[0].lives).disk
  {
    assert starts[1..] == [];
  }
}
