/** The crash-safe conversion of a plaintext store (database-encryption.ts).

    Files are modelled by what the conversion can tell about them: raw bytes, or an ideal sealed
    image that opens with one key only. Every file action is one step, and a start may die before
    any step (`Env.crashAfter`). `Boot` is the specification of one start as a function of the disk,
    the key and the environment; class `StoreFiles` is the code, proved equal to it; the lemmas say
    what every run of starts keeps. */
module DatabaseEncryption {
  import opened CrashTrace
  import opened Optional

  newtype byte = x: int | 0 <= x < 256

  type Key = nat

  /** "SQLite format 3" and a NUL. */
  const HEADER: seq<byte> := [83, 81, 76, 105, 116, 101, 32, 102, 111, 114, 109, 97, 116, 32, 51, 0]
  const ZERO_CHUNK: nat := 65536

  /** One file name: nothing there, bytes as they lie on disk, or an image sealed under a key. */
  datatype File = Absent | Raw(bytes: seq<byte>) | Sealed(key: Key, image: seq<byte>)

  /** The four names the conversion touches. `wal` is the committed image the main file lacks. */
  datatype Disk = Disk(main: File, wal: Option<seq<byte>>, staging: File, quarantine: File)

  datatype Outcome =
    | Crashed | Missing | Empty | AlreadyEncrypted | Encrypted | Recovered | Quarantined
    | Refused  // the main file does not open with this key: the start throws
    | Failed   // the conversion threw before anything was destroyed

  /** What the outside world does to one start: when it dies, how far the copy and the seal have got
      when it does, how much each zeroing write transfers, and which calls fail. */
  datatype Env = Env(
    crashAfter: nat,
    copied: nat, torn: seq<byte>, writes: seq<nat>,
    removable: bool, renames: bool, walBusy: bool, sealFails: bool)

  /** Opening with a key and reading one page. SQLite takes a zero-byte file for an empty database
      whatever the key; any other raw file (plaintext, partial or zeroed) does not open. */
  predicate Opens(f: File, key: Key) {
    match f
    case Absent => false
    case Raw(bytes) => bytes == []
    case Sealed(k, _) => k == key
  }

  predicate PlainHeader(f: File) {
    f.Raw? && |f.bytes| >= |HEADER| && f.bytes[..|HEADER|] == HEADER
  }

  predicate MainUsable(f: File, key: Key) {
    !f.Absent? && f != Raw([]) && (PlainHeader(f) || Opens(f, key))
  }

  /** The content a reader of the main file sees: the committed log wins over the file. */
  function LogicalImage(d: Disk): seq<byte> {
    if d.wal.Some? then d.wal.value
    else match d.main
      case Absent => []
      case Raw(bytes) => bytes
      case Sealed(_, image) => image
  }

  function Zeros(n: nat): (z: seq<byte>)
    ensures |z| == n
  {
    seq(n, _ => 0 as byte)
  }

  function Removed(f: File, removable: bool): File {
    if removable then Absent else f
  }

  /** Bytes one write call transfers: at least one, at most what was asked for. */
  function Transfer(writes: seq<nat>, request: nat): (n: nat)
    requires request > 0
    ensures 1 <= n <= request
  {
    if writes == [] || writes[0] > request then request
    else if writes[0] == 0 then 1
    else writes[0]
  }

  function Rest(writes: seq<nat>): seq<nat> {
    if writes == [] then [] else writes[1..]
  }

  function Least(a: nat, b: nat): nat {
    if a < b then a else b
  }

  // ----- The specification: the disks one start goes through -----

  /** The disk after each file action of `recoverInterruptedConversion`. */
  function RecoverTrace(d: Disk, key: Key, env: Env): seq<Disk> {
    var dropped := d.(staging := Removed(d.staging, env.removable));
    if d.staging.Absent? then []
    else if !Opens(d.staging, key) then
      if MainUsable(d.main, key) then [dropped]
      else if !d.main.Absent? then []
      else
        var cleared := d.(quarantine := Removed(d.quarantine, env.removable));
        [cleared, if env.renames then cleared.(quarantine := d.staging, staging := Absent) else cleared]
    else if Opens(d.main, key) || PlainHeader(d.main) then [dropped]
    else
      var noLog := if env.removable then d.(wal := None) else d;
      [noLog, noLog.(main := d.staging, staging := Absent)]
  }

  /** What recovery returns; `None` sends the caller to the main file. */
  function RecoverVerdict(d: Disk, key: Key): Option<Outcome> {
    if d.staging.Absent? then None
    else if !Opens(d.staging, key) then
      if MainUsable(d.main, key) || !d.main.Absent? then None else Some(Quarantined)
    else if Opens(d.main, key) || PlainHeader(d.main) then None
    else Some(Recovered)
  }

  /** The original once its first `offset` bytes are overwritten. */
  function Zeroed(image: seq<byte>, offset: nat): File
    requires offset <= |image|
  {
    Raw(Zeros(offset) + image[offset..])
  }

  function ZeroTrace(d: Disk, image: seq<byte>, offset: nat, writes: seq<nat>): seq<Disk>
    requires offset <= |image|
    decreases |image| - offset
  {
    if offset == |image| then []
    else
      var end := offset + Transfer(writes, Least(ZERO_CHUNK, |image| - offset));
      [d.(main := Zeroed(image, end))] + ZeroTrace(d, image, end, Rest(writes))
  }

  /** The store with its log folded in, where `encryptPlaintextStore` starts copying. */
  function Checkpointed(d: Disk): Disk {
    d.(main := Raw(LogicalImage(d)), wal := None)
  }

  function SealTrace(d: Disk, key: Key, env: Env): seq<Disk>
    requires d.main.Raw?
  {
    var image := d.main.bytes;
    [d.(staging := Raw(image[..Least(env.copied, |image|)])),
     d.(staging := Raw(image)),
     d.(staging := Raw(env.torn)),
     if env.sealFails then d.(staging := Removed(Raw(env.torn), env.removable)) else d.(staging := Sealed(key, image))]
  }

  /** From the sealed copy to its final name: remove the original, drop its log, rename. */
  function InstallTrace(d: Disk, env: Env): seq<Disk> {
    var gone := d.(main := Absent);
    var noLog := if env.removable then gone.(wal := None) else gone;
    [gone, noLog, noLog.(main := d.staging, staging := Absent)]
  }

  function ConvertTrace(d: Disk, key: Key, env: Env): seq<Disk>
    requires d.main.Raw?
  {
    if d.wal.Some? && env.walBusy then []
    else
      var folded := if d.wal.Some? then [Checkpointed(d)] else [];
      var start := Checkpointed(d);
      var copy := SealTrace(start, key, env);
      if env.sealFails then folded + copy
      else
        var zero := ZeroTrace(copy[3], start.main.bytes, 0, env.writes);
        var spent := copy[3].(main := Zeroed(start.main.bytes, |start.main.bytes|));
        folded + copy + zero + InstallTrace(spent, env)
  }

  function ConvertOutcome(d: Disk, env: Env): Outcome {
    if (d.wal.Some? && env.walBusy) || env.sealFails then Failed else Encrypted
  }

  datatype Result = Result(disk: Disk, outcome: Outcome)

  /** `ensureDatabaseEncrypted` once recovery has pointed at the main file. */
  function Judge(d: Disk, key: Key, env: Env, lives: nat): Result {
    if d.main.Absent? then Result(d, Missing)
    else if d.main == Raw([]) then Result(d, Empty)
    else if !PlainHeader(d.main) then Result(d, if Opens(d.main, key) then AlreadyEncrypted else Refused)
    else
      var p := Play(d, ConvertTrace(d, key, env), lives);
      Result(p.disk, if p.died then Crashed else ConvertOutcome(d, env))
  }

  /** One start. */
  function Boot(d: Disk, key: Key, env: Env): Result {
    var p := Play(d, RecoverTrace(d, key, env), env.crashAfter);
    if p.died then Result(p.disk, Crashed)
    else
      var verdict := RecoverVerdict(d, key);
      if verdict.Some? then Result(p.disk, verdict.value)
      else Judge(p.disk, key, env, p.left)
  }

  // ----- The code -----

  class StoreFiles {
    var main: File
    var wal: Option<seq<byte>>
    var staging: File
    var quarantine: File
    /** File actions this process may still complete. */
    var lives: nat

    function Snapshot(): Disk
      reads this
    {
      Disk(main, wal, staging, quarantine)
    }

    constructor (d: Disk)
      ensures Snapshot() == d
    {
      main, wal, staging, quarantine := d.main, d.wal, d.staging, d.quarantine;
      lives := 0;
    }

    method Recover(key: Key, env: Env) returns (died: bool, verdict: Option<Outcome>)
      modifies this
      ensures Progress(Snapshot(), lives, died) ==
              Play(old(Snapshot()), RecoverTrace(old(Snapshot()), key, env), old(lives))
      ensures !died ==> verdict == RecoverVerdict(old(Snapshot()), key)
    {
      died, verdict := false, None;
      if staging.Absent? {
        return;
      }
      if !Opens(staging, key) {
        if MainUsable(main, key) {
          if lives == 0 { return true, None; }
          lives, staging := lives - 1, Removed(staging, env.removable);
          return;
        }
        if !main.Absent? {
          return;
        }
        if lives == 0 { return true, None; }
        lives, quarantine := lives - 1, Removed(quarantine, env.removable);
        if lives == 0 { return true, None; }
        lives := lives - 1;
        if env.renames {
          quarantine, staging := staging, Absent;
        }
        return false, Some(Quarantined);
      }
      if Opens(main, key) || PlainHeader(main) {
        if lives == 0 { return true, None; }
        lives, staging := lives - 1, Removed(staging, env.removable);
        return;
      }
      if lives == 0 { return true, None; }
      lives := lives - 1;
      if env.removable {
        wal := None;
      }
      if lives == 0 { return true, None; }
      lives, main, staging := lives - 1, staging, Absent;
      verdict := Some(Recovered);
    }

    /** `zeroOverwrite`: the chunk loop. A write may transfer less than it was asked to. */
    method ZeroOverwrite(env: Env) returns (died: bool)
      requires main.Raw?
      modifies this
      ensures Progress(Snapshot(), lives, died) ==
              Play(old(Snapshot()), ZeroTrace(old(Snapshot()), old(main.bytes), 0, env.writes), old(lives))
      ensures !died ==> Snapshot() == old(Snapshot()).(main := Zeroed(old(main.bytes), |old(main.bytes)|))
    {
      var image := main.bytes;
      var offset, writes := 0, env.writes;
      ghost var d, full, done := Snapshot(), ZeroTrace(Snapshot(), image, 0, writes), [];
      died := false;
      while offset < |image|
        invariant offset <= |image|
        invariant Snapshot() == d.(main := Zeroed(image, offset)) == At(d, done, |done|)
        invariant full == done + ZeroTrace(d, image, offset, writes)
        invariant |done| + lives == old(lives)
      {
        if lives == 0 {
          return true;
        }
        var end := offset + Transfer(writes, Least(ZERO_CHUNK, |image| - offset));
        lives, main := lives - 1, Zeroed(image, end);
        done := done + [Snapshot()];
        offset, writes := end, Rest(writes);
      }
    }

    /** `checkpointIntoMainFile`, when there is a log to fold in. */
    method FoldLog() returns (died: bool)
      requires main.Raw? && wal.Some?
      modifies this
      ensures Progress(Snapshot(), lives, died) == Play(old(Snapshot()), [Checkpointed(old(Snapshot()))], old(lives))
    {
      if lives == 0 { return true; }
      lives, main, wal := lives - 1, Raw(wal.value), None;
      died := false;
    }

    /** Copy, `sealStagingCopy`, and the removal of the copy when sealing or verifying threw. */
    method SealCopy(key: Key, env: Env) returns (died: bool)
      requires main.Raw?
      modifies this
      ensures Progress(Snapshot(), lives, died) ==
              Play(old(Snapshot()), SealTrace(old(Snapshot()), key, env), old(lives))
    {
      if lives == 0 { return true; }
      lives, staging := lives - 1, Raw(main.bytes[..Least(env.copied, |main.bytes|)]);
      if lives == 0 { return true; }
      lives, staging := lives - 1, Raw(main.bytes);
      if lives == 0 { return true; }
      lives, staging := lives - 1, Raw(env.torn);
      if lives == 0 { return true; }
      lives := lives - 1;
      staging := if env.sealFails then Removed(staging, env.removable) else Sealed(key, main.bytes);
      died := false;
    }

    method Install(env: Env) returns (died: bool)
      modifies this
      ensures Progress(Snapshot(), lives, died) ==
              Play(old(Snapshot()), InstallTrace(old(Snapshot()), env), old(lives))
    {
      if lives == 0 { return true; }
      lives, main := lives - 1, Absent;
      if lives == 0 { return true; }
      lives := lives - 1;
      if env.removable {
        wal := None;
      }
      if lives == 0 { return true; }
      lives, main, staging := lives - 1, staging, Absent;
      died := false;
    }

    method EncryptPlaintextStore(key: Key, env: Env) returns (outcome: Outcome)
      requires main.Raw?
      modifies this
      ensures var p := Play(old(Snapshot()), ConvertTrace(old(Snapshot()), key, env), old(lives));
              Snapshot() == p.disk && outcome == if p.died then Crashed else ConvertOutcome(old(Snapshot()), env)
    {
      ghost var d, trace := Snapshot(), ConvertTrace(Snapshot(), key, env);
      if wal.Some? && env.walBusy { return Failed; }
      var died := false;
      if wal.Some? {
        died := FoldLog();
      }
      ghost var start := Checkpointed(d);
      ghost var folded := if d.wal.Some? then [start] else [];
      ghost var copy := SealTrace(start, key, env);
      if env.sealFails {
        PlayConcat(d, folded, copy, old(lives));
      } else {
        ghost var zero := ZeroTrace(copy[3], start.main.bytes, 0, env.writes);
        ghost var install := InstallTrace(copy[3].(main := Zeroed(start.main.bytes, |start.main.bytes|)), env);
        PlayConcat(d, folded, copy, old(lives));
        PlayConcat(d, folded + copy, zero, old(lives));
        PlayConcat(d, folded + copy + zero, install, old(lives));
      }
      if died { return Crashed; }
      died := SealCopy(key, env);
      if died { return Crashed; }
      if env.sealFails { return Failed; }
      died := ZeroOverwrite(env);
      if died { return Crashed; }
      died := Install(env);
      outcome := if died then Crashed else Encrypted;
    }

    /** `ensureDatabaseEncrypted`: one start of the application. */
    method EnsureDatabaseEncrypted(key: Key, env: Env) returns (outcome: Outcome)
      modifies this
      ensures Result(Snapshot(), outcome) == Boot(old(Snapshot()), key, env)
    {
      lives := env.crashAfter;
      var died, verdict := Recover(key, env);
      if died { return Crashed; }
      if verdict.Some? { return verdict.value; }
      if main.Absent? { return Missing; }
      if main == Raw([]) { return Empty; }
      if !PlainHeader(main) {
        return if Opens(main, key) then AlreadyEncrypted else Refused;
      }
      outcome := EncryptPlaintextStore(key, env);
    }
  }
}
