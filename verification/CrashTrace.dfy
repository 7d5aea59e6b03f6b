/** A process that works through a list of disk states, one file action each, and may die before any
    of them. Used by every protocol whose crash safety is proved here. */
module CrashTrace {
  /** Where the process stands: the disk, the actions it may still do, and whether it died. */
  datatype Progress<D> = Progress(disk: D, left: nat, died: bool)

  /** The disk once the first `n` actions of a trace are done. */
  function At<D>(d: D, trace: seq<D>, n: nat): D
    requires n <= |trace|
  {
    if n == 0 then d else trace[n - 1]
  }

  function Play<D>(d: D, trace: seq<D>, lives: nat): Progress<D> {
    if lives < |trace| then Progress(At(d, trace, lives), 0, true)
    else Progress(At(d, trace, |trace|), lives - |trace|, false)
  }

  lemma PlayConcat<D>(d: D, a: seq<D>, b: seq<D>, lives: nat)
    ensures Play(d, a + b, lives) ==
            var p := Play(d, a, lives);
            if p.died then p else Play(p.disk, b, p.left)
  {
  }
}
