/** What every run of starts keeps: the mail content survives each crash, under any keys, and a
    start that is not interrupted finishes the conversion. */
module ConversionSafety {
  import opened CrashTrace
  import opened DatabaseEncryption
  import opened Optional

  /** The content of a real store: a database image begins with the plaintext header. */
  predicate MailImage(mail: seq<byte>) {
    |mail| >= |HEADER| && mail[..|HEADER|] == HEADER
  }

  predicate Holds(f: File, mail: seq<byte>) {
    f.Sealed? && f.image == mail
  }

  /** The mail can still be read from one of the three names, as plaintext or under one of `keys`. */
  predicate Survives(d: Disk, mail: seq<byte>, keys: set<Key>) {
    || (PlainHeader(d.main) && LogicalImage(d) == mail)
    || (d.main.Sealed? && d.main.key in keys && LogicalImage(d) == mail)
    || (Holds(d.staging, mail) && d.staging.key in keys)
    || (Holds(d.quarantine, mail) && d.quarantine.key in keys)
  }

  /** Whatever is sealed is sealed under one of `keys`. */
  predicate SealedUnder(d: Disk, keys: set<Key>) {
    && (d.main.Sealed? ==> d.main.key in keys)
    && (d.staging.Sealed? ==> d.staging.key in keys)
    && (d.quarantine.Sealed? ==> d.quarantine.key in keys)
  }

  // The four places the mail is authoritative in while every quarantine succeeds.

  predicate PlainPhase(d: Disk, mail: seq<byte>) {
    PlainHeader(d.main) && LogicalImage(d) == mail && MailImage(mail)
  }

  predicate StagedPhase(d: Disk, mail: seq<byte>) {
    && Holds(d.staging, mail) && d.wal.None?
    && (d.main.Absent? || (d.main.Raw? && d.main.bytes != [] && !PlainHeader(d.main)))
  }

  predicate SealedPhase(d: Disk, mail: seq<byte>) {
    d.main.Sealed? && LogicalImage(d) == mail && d.staging.Absent?
  }

  predicate QuarantinePhase(d: Disk, mail: seq<byte>) {
    Holds(d.quarantine, mail) && d.staging.Absent? && (d.main.Absent? || d.main == Raw([]) || d.main.Sealed?)
  }

  predicate Ordinary(d: Disk, mail: seq<byte>) {
    PlainPhase(d, mail) || StagedPhase(d, mail) || SealedPhase(d, mail) || QuarantinePhase(d, mail)
  }

  // The two places a failed quarantine leaves it in: still staged, beside a main file it does not belong to.

  predicate TrapPhase(d: Disk, mail: seq<byte>) {
    Holds(d.staging, mail) && d.wal.None? && d.main == Raw([])
  }

  predicate ShadowPhase(d: Disk, mail: seq<byte>) {
    Holds(d.staging, mail) && d.main.Sealed?
  }

  predicate Inv(d: Disk, mail: seq<byte>) {
    Ordinary(d, mail) || TrapPhase(d, mail) || ShadowPhase(d, mail)
  }

  /** The same while only one key has ever been used. */
  predicate InvUnder(d: Disk, mail: seq<byte>, key: Key) {
    || PlainPhase(d, mail)
    || (StagedPhase(d, mail) && d.staging.key == key)
    || (SealedPhase(d, mail) && d.main.key == key)
  }

  /** No name holds the mail, and nothing the code does can bring it back. */
  predicate Lost(d: Disk, mail: seq<byte>) {
    && d.staging.Absent? && !Holds(d.quarantine, mail)
    && (d.main.Absent? || d.main == Raw([]) || (d.main.Sealed? && LogicalImage(d) != mail))
  }

  /** What a start must find for the mail to be lost in it: the only copy staged beside an empty main file
      and this key opens both, or beside a store that this key opens, or (the third case) beside a store
      whose log outlives it because its removal failed. */
  predicate Loses(d: Disk, mail: seq<byte>, key: Key, env: Env) {
    && !Holds(d.quarantine, mail)
    && (|| (TrapPhase(d, mail) && key == d.staging.key && env.removable && env.crashAfter > 0)
        || (ShadowPhase(d, mail) && key == d.main.key && LogicalImage(d) != mail
            && env.removable && env.crashAfter > 0)
        || (ShadowPhase(d, mail) && key == d.staging.key != d.main.key && d.wal.Some? && d.wal.value != mail
            && !env.removable && env.crashAfter > 1))
  }

  /** The start returned to its caller, which then opens the store. */
  predicate MayOpen(outcome: Outcome) {
    outcome.Missing? || outcome.Empty? || outcome.AlreadyEncrypted?
    || outcome.Encrypted? || outcome.Recovered? || outcome.Quarantined?
  }

  /** What the application does with a store it was given: nothing, a connection that never writes
      (which leaves a zero-byte file where there was none), or a write, checkpointed or not. */
  datatype Work = Idle | Connected | Wrote(image: seq<byte>, checkpointed: bool)

  function Session(d: Disk, key: Key, work: Work): Disk {
    match work
    case Idle => d
    case Connected => if d.main.Absent? then d.(main := Raw([])) else d
    case Wrote(image, true) => d.(main := Sealed(key, image), wal := None)
    case Wrote(image, false) =>
      d.(main := if d.main.Sealed? then d.main else Sealed(key, []), wal := Some(image))
  }

  /** The mail after a session: what was written, if the session had the mail in front of it. */
  function MailAfter(d: Disk, mail: seq<byte>, work: Work): seq<byte> {
    if work.Wrote? && SealedPhase(d, mail) then work.image else mail
  }

  datatype Start = Start(key: Key, env: Env, work: Work)

  /** One start and the session it allows. */
  function Live(d: Disk, s: Start): Disk {
    var r := Boot(d, s.key, s.env);
    if MayOpen(r.outcome) then Session(r.disk, s.key, s.work) else r.disk
  }

  function MailLived(d: Disk, mail: seq<byte>, s: Start): seq<byte> {
    var r := Boot(d, s.key, s.env);
    if MayOpen(r.outcome) then MailAfter(r.disk, mail, s.work) else mail
  }

  function DiskAfter(d: Disk, run: seq<Start>): Disk
    decreases |run|
  {
    if run == [] then d else DiskAfter(Live(d, run[0]), run[1..])
  }

  function MailOf(d: Disk, mail: seq<byte>, run: seq<Start>): seq<byte>
    decreases |run|
  {
    if run == [] then mail else MailOf(Live(d, run[0]), MailLived(d, mail, run[0]), run[1..])
  }

  function KeysOf(run: seq<Start>): set<Key> {
    set s <- run :: s.key
  }

  lemma {:induction false} ZeroTraceDestroysHeaderFirst(d: Disk, image: seq<byte>, offset: nat, writes: seq<nat>)
    requires offset <= |image| && MailImage(image)
    ensures forall x <- ZeroTrace(d, image, offset, writes) ::
              && x == d.(main := x.main)
              && x.main.Raw? && |x.main.bytes| == |image| && x.main.bytes[0] == 0 && !PlainHeader(x.main)
    decreases |image| - offset
  {
    if offset < |image| {
      var end := offset + Transfer(writes, Least(ZERO_CHUNK, |image| - offset));
      ZeroTraceDestroysHeaderFirst(d, image, end, Rest(writes));
      var f := Zeroed(image, end);
      assert f.bytes[0] == 0;
      assert !PlainHeader(f) by {
        assert f.bytes[..|HEADER|][0] == 0;
      }
    }
  }

  lemma SealingKeeps(d: Disk, mail: seq<byte>, key: Key, env: Env)
    requires PlainPhase(d, mail) && d.wal.None?
    ensures forall x <- SealTrace(d, key, env) :: InvUnder(x, mail, key)
  {
  }

  lemma ZeroingKeeps(d: Disk, mail: seq<byte>, writes: seq<nat>)
    requires MailImage(mail) && Holds(d.staging, mail) && d.wal.None?
    ensures forall x <- ZeroTrace(d, mail, 0, writes) :: InvUnder(x, mail, d.staging.key)
    ensures StagedPhase(d.(main := Zeroed(mail, |mail|)), mail)
  {
    ZeroTraceDestroysHeaderFirst(d, mail, 0, writes);
    assert !PlainHeader(Zeroed(mail, |mail|)) by {
      assert Zeroed(mail, |mail|).bytes[..|HEADER|][0] == 0;
    }
  }

  lemma InstallingKeeps(d: Disk, mail: seq<byte>, env: Env)
    requires StagedPhase(d, mail)
    ensures forall x <- InstallTrace(d, env) :: InvUnder(x, mail, d.staging.key)
    ensures InstallTrace(d, env)[2].main == d.staging && SealedPhase(InstallTrace(d, env)[2], mail)
  {
  }

  /** Every disk a conversion passes through keeps the mail where recovery will look for it. */
  lemma ConvertKeeps(d: Disk, mail: seq<byte>, key: Key, env: Env, lives: nat)
    requires PlainPhase(d, mail)
    ensures var p := Play(d, ConvertTrace(d, key, env), lives);
            && InvUnder(p.disk, mail, key)
            && (!p.died && ConvertOutcome(d, env).Encrypted? ==>
                  SealedPhase(p.disk, mail) && p.disk.main == Sealed(key, mail))
  {
    var start := Checkpointed(d);
    var copy := SealTrace(start, key, env);
    var spent := copy[3].(main := Zeroed(mail, |mail|));
    assert PlainPhase(start, mail);
    SealingKeeps(start, mail, key, env);
    if !env.sealFails {
      ZeroingKeeps(copy[3], mail, env.writes);
      InstallingKeeps(spent, mail, env);
    }
    hide SealTrace, ZeroTrace, InstallTrace;
    assert forall x <- ConvertTrace(d, key, env) :: InvUnder(x, mail, key);
  }

  /** Where the mail may be when a start hands the store out. */
  predicate Openable(d: Disk, mail: seq<byte>) {
    || SealedPhase(d, mail) || QuarantinePhase(d, mail) || TrapPhase(d, mail) || ShadowPhase(d, mail)
    || (StagedPhase(d, mail) && d.main.Absent?)
  }

  lemma BootFromTrapOrShadow(d: Disk, mail: seq<byte>, key: Key, env: Env)
    requires TrapPhase(d, mail) || ShadowPhase(d, mail)
    ensures var r := Boot(d, key, env);
            if Loses(d, mail, key, env) then Lost(r.disk, mail)
            else Inv(r.disk, mail) && (MayOpen(r.outcome) ==> Openable(r.disk, mail))
  {
  }

  lemma BootFromPlain(d: Disk, mail: seq<byte>, key: Key, env: Env)
    requires PlainPhase(d, mail)
    ensures var r := Boot(d, key, env);
            Ordinary(r.disk, mail) && (MayOpen(r.outcome) ==> Openable(r.disk, mail))
  {
    var p := Play(d, RecoverTrace(d, key, env), env.crashAfter);
    assert PlainPhase(p.disk, mail) && RecoverVerdict(d, key).None?;
    if !p.died {
      ConvertKeeps(p.disk, mail, key, env, p.left);
    }
  }

  lemma BootFromElsewhere(d: Disk, mail: seq<byte>, key: Key, env: Env)
    requires StagedPhase(d, mail) || SealedPhase(d, mail) || QuarantinePhase(d, mail)
    ensures var r := Boot(d, key, env);
            Ordinary(r.disk, mail) && (MayOpen(r.outcome) ==> Openable(r.disk, mail))
  {
    hide ConvertTrace;
  }

  lemma BootFromOrdinary(d: Disk, mail: seq<byte>, key: Key, env: Env)
    requires Ordinary(d, mail)
    ensures var r := Boot(d, key, env);
            Ordinary(r.disk, mail) && (MayOpen(r.outcome) ==> Openable(r.disk, mail))
  {
    hide Boot, PlainPhase, StagedPhase, SealedPhase, QuarantinePhase, Openable, MayOpen;
    if PlainPhase(d, mail) {
      BootFromPlain(d, mail, key, env);
    } else {
      BootFromElsewhere(d, mail, key, env);
    }
  }

  /** One start, whatever its key and wherever it dies, loses the mail exactly when `Loses` says so, and
      otherwise keeps it in one of its six places. */
  lemma BootKeepsOrLoses(d: Disk, mail: seq<byte>, key: Key, env: Env)
    requires Inv(d, mail)
    ensures var r := Boot(d, key, env);
            if Loses(d, mail, key, env) then Lost(r.disk, mail)
            else Inv(r.disk, mail) && (MayOpen(r.outcome) ==> Openable(r.disk, mail))
  {
    hide Boot, PlainPhase, StagedPhase, SealedPhase, QuarantinePhase, Openable, MayOpen, Lost;
    if Ordinary(d, mail) {
      BootFromOrdinary(d, mail, key, env);
      OrdinaryLosesNothing(d, mail, key, env);
    } else {
      BootFromTrapOrShadow(d, mail, key, env);
    }
  }

  lemma OrdinaryLosesNothing(d: Disk, mail: seq<byte>, key: Key, env: Env)
    requires Ordinary(d, mail)
    ensures !TrapPhase(d, mail) && !ShadowPhase(d, mail) && !Loses(d, mail, key, env)
  {
  }

  lemma SessionKeeps(d: Disk, mail: seq<byte>, key: Key, work: Work)
    requires Openable(d, mail)
    ensures Inv(Session(d, key, work), MailAfter(d, mail, work))
  {
  }

  // ----- Whole runs -----

  lemma BootSealsUnder(d: Disk, keys: set<Key>, key: Key, env: Env)
    requires SealedUnder(d, keys)
    ensures SealedUnder(Boot(d, key, env).disk, keys + {key})
  {
    var p := Play(d, RecoverTrace(d, key, env), env.crashAfter);
    if !p.died && RecoverVerdict(d, key).None? && PlainHeader(p.disk.main) {
      ConvertSealsUnder(p.disk, keys, key, env, p.left);
    }
  }

  lemma {:induction false} ZeroTraceIsRaw(d: Disk, image: seq<byte>, offset: nat, writes: seq<nat>)
    requires offset <= |image|
    ensures forall x <- ZeroTrace(d, image, offset, writes) :: x.main.Raw? && x == d.(main := x.main)
    decreases |image| - offset
  {
    if offset < |image| {
      ZeroTraceIsRaw(d, image, offset + Transfer(writes, Least(ZERO_CHUNK, |image| - offset)), Rest(writes));
    }
  }

  lemma SealingSealsUnder(d: Disk, keys: set<Key>, key: Key, env: Env)
    requires SealedUnder(d, keys) && d.main.Raw?
    ensures forall x <- SealTrace(d, key, env) :: SealedUnder(x, keys + {key})
  {
  }

  lemma InstallingSealsUnder(d: Disk, keys: set<Key>, env: Env)
    requires SealedUnder(d, keys)
    ensures forall x <- InstallTrace(d, env) :: SealedUnder(x, keys)
  {
  }

  lemma ConvertSealsUnder(d: Disk, keys: set<Key>, key: Key, env: Env, lives: nat)
    requires SealedUnder(d, keys) && d.main.Raw?
    ensures SealedUnder(Play(d, ConvertTrace(d, key, env), lives).disk, keys + {key})
  {
    var start := Checkpointed(d);
    var copy := SealTrace(start, key, env);
    SealingSealsUnder(start, keys, key, env);
    ZeroTraceIsRaw(copy[3], LogicalImage(d), 0, env.writes);
    InstallingSealsUnder(copy[3].(main := Zeroed(LogicalImage(d), |LogicalImage(d)|)), keys + {key}, env);
    hide SealTrace, ZeroTrace, InstallTrace;
    assert forall x <- ConvertTrace(d, key, env) :: SealedUnder(x, keys + {key});
  }

  /** Every file is sealed under a key the disk began with or a start used. */
  lemma {:induction false} RunSealsUnder(d: Disk, keys: set<Key>, run: seq<Start>)
    requires SealedUnder(d, keys)
    ensures SealedUnder(DiskAfter(d, run), keys + KeysOf(run))
    decreases |run|
  {
    if run != [] {
      BootSealsUnder(d, keys, run[0].key, run[0].env);
      RunSealsUnder(Live(d, run[0]), keys + {run[0].key}, run[1..]);
      assert keys + {run[0].key} + KeysOf(run[1..]) == keys + KeysOf(run);
    }
  }

  /** No start of the run finds what it takes to lose the mail. */
  predicate NoneLoses(d: Disk, mail: seq<byte>, run: seq<Start>)
    decreases |run|
  {
    run == []
    || (!Loses(d, mail, run[0].key, run[0].env)
        && NoneLoses(Live(d, run[0]), MailLived(d, mail, run[0]), run[1..]))
  }

  /** No session in front of some other store writes the very mail that is missing from it. */
  predicate WritesNoOldMail(d: Disk, mail: seq<byte>, run: seq<Start>)
    decreases |run|
  {
    run == []
    || ((run[0].work.Wrote? && run[0].work.image == mail ==>
           SealedPhase(Boot(d, run[0].key, run[0].env).disk, mail))
        && WritesNoOldMail(Live(d, run[0]), MailLived(d, mail, run[0]), run[1..]))
  }

  lemma InvSurvives(d: Disk, mail: seq<byte>, keys: set<Key>)
    requires Inv(d, mail) && SealedUnder(d, keys)
    ensures Survives(d, mail, keys)
  {
  }

  lemma StepKeeps(d: Disk, mail: seq<byte>, s: Start)
    requires Inv(d, mail) && !Loses(d, mail, s.key, s.env)
    ensures Inv(Live(d, s), MailLived(d, mail, s))
  {
    hide Boot, Inv, Openable, MayOpen, Session, MailAfter, Loses;
    BootKeepsOrLoses(d, mail, s.key, s.env);
    var r := Boot(d, s.key, s.env);
    if MayOpen(r.outcome) {
      SessionKeeps(r.disk, mail, s.key, s.work);
    }
  }

  lemma {:induction false} InvOverRuns(d: Disk, mail: seq<byte>, run: seq<Start>)
    requires Inv(d, mail) && NoneLoses(d, mail, run)
    ensures Inv(DiskAfter(d, run), MailOf(d, mail, run))
    decreases |run|
  {
    hide Inv, Loses, Live, MailLived;
    if run != [] {
      StepKeeps(d, mail, run[0]);
      InvOverRuns(Live(d, run[0]), MailLived(d, mail, run[0]), run[1..]);
    }
  }

  /** A start and a session of a lost store change nothing that matters. */
  lemma LostStays(d: Disk, mail: seq<byte>, s: Start)
    requires Lost(d, mail) && WritesNoOldMail(d, mail, [s])
    ensures Lost(Live(d, s), mail) && MailLived(d, mail, s) == mail
  {
    assert Boot(d, s.key, s.env).disk == d;
  }

  lemma {:induction false} LostForGood(d: Disk, mail: seq<byte>, keys: set<Key>, run: seq<Start>)
    requires Lost(d, mail) && WritesNoOldMail(d, mail, run)
    ensures !Survives(DiskAfter(d, run), MailOf(d, mail, run), keys)
    decreases |run|
  {
    if run != [] {
      LostStays(d, mail, run[0]);
      LostForGood(Live(d, run[0]), mail, keys, run[1..]);
    }
  }

  lemma LosingStep(d: Disk, mail: seq<byte>, s: Start)
    requires Inv(d, mail) && Loses(d, mail, s.key, s.env) && WritesNoOldMail(d, mail, [s])
    ensures Lost(Live(d, s), mail) && MailLived(d, mail, s) == mail
  {
    BootKeepsOrLoses(d, mail, s.key, s.env);
    hide Boot, Inv, Loses;
  }

  /** Over every run of starts under any keys, each dying after any file action and with any of the
      failures the code swallows, and of the sessions between them: the mail as last written survives, as
      plaintext or sealed under a key the disk began with or a start used, exactly when no start finds
      what it takes to lose it. */
  lemma {:induction false} MailSurvivesExactly(d: Disk, mail: seq<byte>, keys: set<Key>, run: seq<Start>)
    requires Inv(d, mail) && SealedUnder(d, keys) && WritesNoOldMail(d, mail, run)
    ensures Survives(DiskAfter(d, run), MailOf(d, mail, run), keys + KeysOf(run)) <==> NoneLoses(d, mail, run)
    decreases |run|
  {
    hide Inv, Loses, Live, MailLived, SealedUnder, Survives, Lost;
    if run == [] {
      assert keys + KeysOf(run) == keys;
      InvSurvives(d, mail, keys);
    } else {
      var next, now := Live(d, run[0]), MailLived(d, mail, run[0]);
      assert [run[0]][1..] == [];
      assert WritesNoOldMail(d, mail, [run[0]]);
      if Loses(d, mail, run[0].key, run[0].env) {
        LosingStep(d, mail, run[0]);
        LostForGood(next, mail, keys + KeysOf(run), run[1..]);
      } else {
        StepKeeps(d, mail, run[0]);
        RunSealsUnder(d, keys, [run[0]]);
        assert DiskAfter(d, [run[0]]) == next && KeysOf([run[0]]) == {run[0].key};
        MailSurvivesExactly(next, now, keys + {run[0].key}, run[1..]);
        assert keys + {run[0].key} + KeysOf(run[1..]) == keys + KeysOf(run);
      }
    }
  }

  // ----- How the mail can come to be lost -----

  /** The one failure that matters: the staged copy is to be quarantined and its rename fails, which the
      code swallows before it goes on as if the copy were safe. */
  predicate QuarantineFails(d: Disk, key: Key, env: Env) {
    RecoverVerdict(d, key) == Some(Quarantined) && !env.renames && env.crashAfter > 1
  }

  /** A start leaves the ordinary places exactly by a failed quarantine and a session that touches the
      store it was given in place of the mail. */
  lemma OrdinaryLeftExactly(d: Disk, mail: seq<byte>, s: Start)
    requires Ordinary(d, mail)
    ensures var next, now := Live(d, s), MailLived(d, mail, s);
            && (QuarantineFails(d, s.key, s.env) && !s.work.Idle? <==> !Ordinary(next, now))
            && (TrapPhase(next, now) <==> QuarantineFails(d, s.key, s.env) && s.work.Connected?)
            && (ShadowPhase(next, now) <==> QuarantineFails(d, s.key, s.env) && s.work.Wrote?)
            && (QuarantineFails(d, s.key, s.env) ==>
                  now == mail && next.staging == d.staging && Holds(d.staging, mail)
                  && next.quarantine == Removed(d.quarantine, s.env.removable))
  {
    var r := Boot(d, s.key, s.env);
    BootFromOrdinary(d, mail, s.key, s.env);
    if QuarantineFails(d, s.key, s.env) {
      assert StagedPhase(d, mail) && d.main.Absent?;
    } else {
      NoTrapWithoutFailure(d, mail, s.key, s.env);
    }
  }

  lemma NoTrapWithoutFailure(d: Disk, mail: seq<byte>, key: Key, env: Env)
    requires Ordinary(d, mail) && !QuarantineFails(d, key, env)
    ensures var r := Boot(d, key, env);
            MayOpen(r.outcome) ==> SealedPhase(r.disk, mail) || QuarantinePhase(r.disk, mail)
  {
    var p := Play(d, RecoverTrace(d, key, env), env.crashAfter);
    if !p.died && RecoverVerdict(d, key).None? && PlainHeader(p.disk.main) {
      ConvertKeeps(p.disk, mail, key, env, p.left);
    }
  }

  predicate NoQuarantineFails(d: Disk, run: seq<Start>)
    decreases |run|
  {
    run == [] || (!QuarantineFails(d, run[0].key, run[0].env) && NoQuarantineFails(Live(d, run[0]), run[1..]))
  }

  /** While no quarantine fails, the mail survives every run. */
  lemma {:induction false} MailSurvivesEveryRun(d: Disk, mail: seq<byte>, keys: set<Key>, run: seq<Start>)
    requires Ordinary(d, mail) && SealedUnder(d, keys) && NoQuarantineFails(d, run)
    ensures NoneLoses(d, mail, run) && Ordinary(DiskAfter(d, run), MailOf(d, mail, run))
    ensures Survives(DiskAfter(d, run), MailOf(d, mail, run), keys + KeysOf(run))
    decreases |run|
  {
    hide Ordinary, Loses, Live, MailLived, SealedUnder, Survives, QuarantineFails;
    OrdinaryIsInv(d, mail);
    if run == [] {
      assert keys + KeysOf(run) == keys;
      InvSurvives(d, mail, keys);
    } else {
      OrdinaryLosesNothing(d, mail, run[0].key, run[0].env);
      OrdinaryLeftExactly(d, mail, run[0]);
      RunSealsUnder(d, keys, [run[0]]);
      assert [run[0]][1..] == [] && DiskAfter(d, [run[0]]) == Live(d, run[0]) && KeysOf([run[0]]) == {run[0].key};
      MailSurvivesEveryRun(Live(d, run[0]), MailLived(d, mail, run[0]), keys + {run[0].key}, run[1..]);
      assert keys + {run[0].key} + KeysOf(run[1..]) == keys + KeysOf(run);
    }
  }

  lemma OrdinaryIsInv(d: Disk, mail: seq<byte>)
    requires Ordinary(d, mail)
    ensures Inv(d, mail)
  {
  }

  /** The start after a failed quarantine, by what the session in between did: it drops the staged copy
      beside an empty file if its key opens the copy, or beside a store if its key opens the store, or
      installs it under the log of a store it replaces. */
  predicate NextStartLoses(d: Disk, s: Start, key: Key, env: Env) {
    match s.work
    case Idle => false
    case Connected => Opens(d.staging, key) && env.removable && env.crashAfter > 0
    case Wrote(_, checkpointed) =>
      || (key == s.key && env.removable && env.crashAfter > 0)
      || (Opens(d.staging, key) && !checkpointed && !env.removable && env.crashAfter > 1)
  }

  /** When two starts lose the mail, exactly: for every session between them and every second key. An older
      quarantined copy of the same mail that could not be removed saves it. */
  lemma MailLostExactlyByFailedQuarantine(d: Disk, mail: seq<byte>, keys: set<Key>, s: Start, key: Key, env: Env)
    requires Ordinary(d, mail) && SealedUnder(d, keys) && WritesNoOldMail(d, mail, [s])
    ensures !Survives(Boot(Live(d, s), key, env).disk, MailLived(d, mail, s), keys + {s.key, key}) <==>
              && QuarantineFails(d, s.key, s.env)
              && !(Holds(d.quarantine, mail) && !s.env.removable)
              && NextStartLoses(d, s, key, env)
  {
    var next, now := Live(d, s), MailLived(d, mail, s);
    var last := Start(key, env, Idle);
    assert [s][1..] == [] && [last][1..] == [];
    assert Live(next, last) == Boot(next, key, env).disk && DiskAfter(next, [last]) == Live(next, last);
    RunSealsUnder(d, keys, [s]);
    assert DiskAfter(d, [s]) == next && KeysOf([s]) == {s.key} && KeysOf([last]) == {key};
    assert keys + KeysOf([s]) + KeysOf([last]) == keys + {s.key, key};
    OrdinaryLeftExactly(d, mail, s);
    if !Ordinary(next, now) {
      assert Boot(d, s.key, s.env).outcome == Quarantined;
    } else {
      OrdinaryLosesNothing(next, now, key, env);
    }
    assert MailOf(next, now, [last]) == now;
    assert Inv(next, now);
    assert NoneLoses(next, now, [last]) <==> !Loses(next, now, key, env);
    hide Boot, Inv, Ordinary;
    MailSurvivesExactly(next, now, keys + KeysOf([s]), [last]);
  }

  // ----- One key throughout -----

  predicate Finished(outcome: Outcome) {
    outcome.AlreadyEncrypted? || outcome.Encrypted? || outcome.Recovered?
  }

  /** With one key, a start that is neither interrupted nor refused a seal leaves the main file sealed under
      that key with exactly the mail, log included, no staged copy, and every later start changes nothing. */
  lemma CleanStartFinishes(d: Disk, mail: seq<byte>, key: Key, env: Env, later: Env)
    requires InvUnder(d, mail, key)
    ensures var r := Boot(d, key, env);
            && InvUnder(r.disk, mail, key)
            && (!r.outcome.Crashed? && !r.outcome.Failed? ==>
                 && Finished(r.outcome) && SealedPhase(r.disk, mail) && r.disk.main.key == key
                 && (!r.outcome.AlreadyEncrypted? ==> r.disk.main == Sealed(key, mail))
                 && Boot(r.disk, key, later) == Result(r.disk, AlreadyEncrypted))
  {
    var p := Play(d, RecoverTrace(d, key, env), env.crashAfter);
    if !p.died && RecoverVerdict(d, key).None? && PlainHeader(p.disk.main) {
      ConvertKeeps(p.disk, mail, key, env, p.left);
    }
  }

  /** The disk after any number of starts under one key. */
  function AfterStarts(d: Disk, key: Key, envs: seq<Env>): Disk
    decreases |envs|
  {
    if envs == [] then d else AfterStarts(Boot(d, key, envs[0]).disk, key, envs[1..])
  }

  lemma {:induction false} InterruptedStarts(d: Disk, mail: seq<byte>, key: Key, envs: seq<Env>)
    requires InvUnder(d, mail, key)
    ensures InvUnder(AfterStarts(d, key, envs), mail, key)
    decreases |envs|
  {
    hide Boot, InvUnder;
    if envs != [] {
      CleanStartFinishes(d, mail, key, envs[0], envs[0]);
      InterruptedStarts(Boot(d, key, envs[0]).disk, mail, key, envs[1..]);
    }
  }

  lemma {:induction false} FinishedStays(d: Disk, key: Key, envs: seq<Env>)
    requires d.main.Sealed? && d.main.key == key && d.staging.Absent?
    ensures AfterStarts(d, key, envs) == d
    decreases |envs|
  {
    if envs != [] {
      assert Boot(d, key, envs[0]).disk == d;
      FinishedStays(d, key, envs[1..]);
    }
  }

  /** However many starts under one key were interrupted or failed, the first that is not ends the
      conversion, with exactly the mail, and no number of later starts changes anything. */
  lemma OneKeyFinishes(d: Disk, mail: seq<byte>, key: Key, before: seq<Env>, clean: Env, later: seq<Env>)
    requires InvUnder(d, mail, key)
    ensures var r := Boot(AfterStarts(d, key, before), key, clean);
            !r.outcome.Crashed? && !r.outcome.Failed? ==>
              && Finished(r.outcome) && SealedPhase(r.disk, mail) && r.disk.main.key == key
              && AfterStarts(r.disk, key, later) == r.disk
  {
    hide Boot, InvUnder;
    InterruptedStarts(d, mail, key, before);
    var reached := AfterStarts(d, key, before);
    CleanStartFinishes(reached, mail, key, clean, clean);
    var r := Boot(reached, key, clean);
    if !r.outcome.Crashed? && !r.outcome.Failed? {
      FinishedStays(r.disk, key, later);
    }
  }

  lemma {:induction false} ZeroTraceLength(d: Disk, image: seq<byte>, offset: nat, writes: seq<nat>)
    requires offset <= |image|
    ensures |ZeroTrace(d, image, offset, writes)| <= |image| - offset
    decreases |image| - offset
  {
    if offset < |image| {
      ZeroTraceLength(d, image, offset + Transfer(writes, Least(ZERO_CHUNK, |image| - offset)), Rest(writes));
    }
  }

  /** A start given enough actions is not interrupted, however short its writes are. */
  lemma EnoughActionsFinish(d: Disk, mail: seq<byte>, key: Key, env: Env)
    requires InvUnder(d, mail, key) && env.crashAfter >= |mail| + 9
    ensures !Boot(d, key, env).outcome.Crashed?
  {
    var p := Play(d, RecoverTrace(d, key, env), env.crashAfter);
    if RecoverVerdict(d, key).None? && PlainHeader(p.disk.main) {
      ZeroTraceLength(SealTrace(Checkpointed(p.disk), key, env)[3], mail, 0, env.writes);
    }
  }

  // ----- The zero-byte main file -----

  /** A zero-byte main file beside a staged copy: the code takes it for sealed already. */
  predicate Trapped(d: Disk) {
    d.main == Raw([]) && !d.staging.Absent?
  }

  predicate EntersTrap(d: Disk, s: Start) {
    QuarantineFails(d, s.key, s.env) && s.work.Connected?
  }

  /** The copy is dropped, or the store in front of it is written. */
  predicate LeavesTrap(d: Disk, s: Start) {
    || (Opens(d.staging, s.key) && s.env.removable && s.env.crashAfter > 0)
    || (s.work.Wrote? && (Opens(d.staging, s.key) ==> s.env.crashAfter > 0))
  }

  /** Whether a run ends in the trap, by the starts that enter and leave it. */
  predicate EndsTrapped(d: Disk, run: seq<Start>, trapped: bool)
    decreases |run|
  {
    if run == [] then trapped
    else EndsTrapped(Live(d, run[0]), run[1..], if trapped then !LeavesTrap(d, run[0]) else EntersTrap(d, run[0]))
  }

  lemma TrapStep(d: Disk, mail: seq<byte>, s: Start)
    requires Inv(d, mail)
    ensures Trapped(Live(d, s)) <==> if Trapped(d) then !LeavesTrap(d, s) else EntersTrap(d, s)
  {
    if Ordinary(d, mail) {
      OrdinaryLeftExactly(d, mail, s);
      hide Boot;
    }
  }

  lemma {:induction false} NoTrapOnceLost(d: Disk, mail: seq<byte>, run: seq<Start>)
    requires Lost(d, mail) && WritesNoOldMail(d, mail, run)
    ensures !Trapped(DiskAfter(d, run)) && !EndsTrapped(d, run, false)
    decreases |run|
  {
    if run != [] {
      LostStays(d, mail, run[0]);
      NoTrapOnceLost(Live(d, run[0]), mail, run[1..]);
    }
  }

  /** A zero-byte main file stands beside a staged copy after a run exactly when some start of it failed to
      quarantine that copy, its session only opened the store, and no start since has dropped the copy or
      written the store. */
  lemma {:induction false} ZeroByteMainExactly(d: Disk, mail: seq<byte>, run: seq<Start>)
    requires Inv(d, mail) && WritesNoOldMail(d, mail, run)
    ensures Trapped(DiskAfter(d, run)) <==> EndsTrapped(d, run, Trapped(d))
    decreases |run|
  {
    if run != [] {
      TrapStep(d, mail, run[0]);
      assert [run[0]][1..] == [];
      if Loses(d, mail, run[0].key, run[0].env) {
        LosingStep(d, mail, run[0]);
        NoTrapOnceLost(Live(d, run[0]), mail, run[1..]);
      } else {
        StepKeeps(d, mail, run[0]);
        ZeroByteMainExactly(Live(d, run[0]), MailLived(d, mail, run[0]), run[1..]);
      }
    }
  }

  /** There the code drops the staged copy as soon as a start holds its key, although the branch after it
      was written to adopt the copy; with no older quarantined copy that costs the mail. */
  lemma ZeroByteMainDropsStagedCopy(d: Disk, mail: seq<byte>, key: Key, env: Env)
    requires TrapPhase(d, mail) && key == d.staging.key && env.removable && env.crashAfter > 0
    ensures Boot(d, key, env) == Result(d.(staging := Absent), Empty)
    ensures !Holds(d.quarantine, mail) <==> Lost(Boot(d, key, env).disk, mail)
  {
  }

  lemma OneStart(d: Disk, run: seq<Start>)
    requires |run| == 1
    ensures DiskAfter(d, run) == Live(d, run[0])
  {
    hide Live;
    assert run[1..] == [];
  }

  lemma TwoStarts(d: Disk, run: seq<Start>)
    requires |run| == 2
    ensures DiskAfter(d, run[..1]) == Live(d, run[0]) && DiskAfter(d, run) == Live(Live(d, run[0]), run[1])
  {
    hide Live;
    OneStart(d, run[..1]);
    OneStart(Live(d, run[0]), run[1..]);
  }

  /** Two starts are enough: one under another key whose quarantine fails and which never writes, and then
      one under the key that sealed the mail. */
  lemma TwoStartsLoseTheMail(mail: seq<byte>, first: Env, second: Env)
    requires !first.renames && first.crashAfter > 1 && second.removable && second.crashAfter > 0
    ensures var d := Disk(Absent, None, Sealed(1, mail), Absent);
            var run := [Start(2, first, Connected), Start(1, second, Idle)];
            && Ordinary(d, mail) && Trapped(DiskAfter(d, run[..1])) && Lost(DiskAfter(d, run), mail)
  {
    var d := Disk(Absent, None, Sealed(1, mail), Absent);
    var run := [Start(2, first, Connected), Start(1, second, Idle)];
    OrdinaryLeftExactly(d, mail, run[0]);
    var next := Live(d, run[0]);
    ZeroByteMainDropsStagedCopy(next, mail, 1, second);
    TwoStarts(d, run);
  }
}
