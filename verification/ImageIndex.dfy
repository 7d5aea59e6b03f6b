/** The image cache's index with deferred write-back, under interleaved requests (image-cache-index.ts and
    the cache half of image-proxy.ts).

    Node runs one statement at a time, so what a request does up to its fetch is one step and what it does
    after the fetch is another; any other steps may come between. Writes of the index succeed. Reading it
    may fail, and the process may restart at any point. */
module ImageIndex {
  type File = string

  datatype Entry = Entry(contentType: string, size: nat, lastAccess: nat)
  type Index = map<File, Entry>

  /** The stored index: none, one from before the cache was sealed, one that does not open, or a good one. */
  datatype Stored = Missing | Legacy | Unusable | Sealed(entries: Index)

  /** How the file system answers one load: as it should, not letting the index be read, or not letting an
      index that is of no use be moved or removed. */
  datatype Access = Reads | ReadFails | MoveFails

  /** `loaded` says whether this process has read or written the index since it started; `inFlight` are the
      files being fetched. */
  datatype State = State(meta: Index, dirty: bool, timerArmed: bool, disk: Stored, loaded: bool,
                         inFlight: multiset<File>, now: nat)

  datatype Step =
    | Request(file: File, access: Access, opens: bool)
    | Arrive(file: File, contentType: string, size: nat)
    | FetchFails(file: File)
    | TimerFires
    | Cleanup(access: Access, gone: set<File>)
    | Tick(now: nat)
    | Restart

  // ----- The index operations -----

  /** `loadMeta`: a dirty index is authoritative, an unreadable one is kept as it is in memory. */
  function Load(s: State, access: Access): State {
    if s.dirty || access.ReadFails? then s
    else
      match s.disk
      case Sealed(entries) => s.(meta := entries, loaded := true)
      case Missing => s.(meta := map[], loaded := true)
      case _ => s.(meta := map[], disk := if access.MoveFails? then s.disk else Missing, loaded := true)
  }

  function Save(s: State): State {
    s.(disk := Sealed(s.meta), dirty := false, loaded := true)
  }

  function Touch(s: State, file: File): State
    requires file in s.meta
  {
    s.(meta := s.meta[file := s.meta[file].(lastAccess := s.now)], dirty := true, timerArmed := true)
  }

  function Flush(s: State): State {
    var t := s.(timerArmed := false);
    if t.dirty then Save(t) else t
  }

  /** Up to the fetch: a readable hit is touched, an unreadable one is dropped from memory. */
  function Begin(s: State, file: File, access: Access, opens: bool): State {
    var t := Load(s, access);
    if file in t.meta && opens then Touch(t, file)
    else t.(meta := t.meta - {file}, inFlight := t.inFlight + multiset{file})
  }

  /** After the fetch: the entry goes into whatever index is current, and is saved at once. */
  function Insert(s: State, file: File, contentType: string, size: nat): State {
    Save(s.(meta := s.meta[file := Entry(contentType, size, s.now)], inFlight := s.inFlight - multiset{file}))
  }

  function Sweep(s: State, access: Access, gone: set<File>): State {
    var t := Load(s, access);
    var removed := gone * t.meta.Keys;
    Flush(if removed == {} then t else Save(t.(meta := t.meta - removed)))
  }

  function Apply(s: State, step: Step): State {
    match step
    case Request(file, access, opens) => Begin(s, file, access, opens)
    case Arrive(file, contentType, size) => if file in s.inFlight then Insert(s, file, contentType, size) else s
    case FetchFails(file) => s.(inFlight := s.inFlight - multiset{file})
    case TimerFires => if s.timerArmed then Flush(s) else s
    case Cleanup(access, gone) => Sweep(s, access, gone)
    case Tick(now) => if now > s.now then s.(now := now) else s
    case Restart => s.(meta := map[], dirty := false, timerArmed := false, loaded := false, inFlight := multiset{})
  }

  function Run(s: State, steps: seq<Step>): State {
    if steps == [] then s else Apply(Run(s, steps[..|steps| - 1]), steps[|steps| - 1])
  }

  // ----- The module -----

  /** The index as an object the module rebinds: every load makes a new one. */
  class IndexObject {
    var entries: Index

    constructor (entries: Index)
      ensures this.entries == entries
    {
      this.entries := entries;
    }
  }

  class ImageIndexModule {
    var meta: IndexObject
    var metaDirty: bool
    var flushTimer: bool
    var disk: Stored
    var now: nat
    ghost var loaded: bool
    ghost var inFlight: multiset<File>

    constructor (disk: Stored, now: nat)
      ensures View() == State(map[], false, false, disk, false, multiset{}, now) && fresh(meta)
    {
      meta := new IndexObject(map[]);
      metaDirty, flushTimer, this.disk, this.now := false, false, disk, now;
      loaded, inFlight := false, multiset{};
    }

    ghost function View(): State
      reads this, meta
    {
      State(meta.entries, metaDirty, flushTimer, disk, loaded, inFlight, now)
    }

    method LoadMeta(access: Access)
      modifies this
      ensures View() == Load(old(View()), access)
      ensures meta == old(meta) || fresh(meta)
    {
      if metaDirty || access.ReadFails? {
        return;
      }
      loaded := true;
      match disk
      case Sealed(entries) =>
        meta := new IndexObject(entries);
      case Missing =>
        meta := new IndexObject(map[]);
      case _ =>
        if !access.MoveFails? {
          disk := Missing;
        }
        meta := new IndexObject(map[]);
    }

    method SaveMeta()
      modifies this
      ensures View() == Save(old(View())) && meta == old(meta)
    {
      disk := Sealed(meta.entries);
      metaDirty := false;
      loaded := true;
    }

    method ScheduleFlush()
      modifies this
      ensures View() == old(View()).(dirty := true, timerArmed := true) && meta == old(meta)
    {
      metaDirty := true;
      if flushTimer {
        return;
      }
      flushTimer := true;
    }

    method FlushMeta()
      modifies this
      ensures View() == Flush(old(View())) && meta == old(meta)
    {
      flushTimer := false;
      if !metaDirty {
        return;
      }
      SaveMeta();
    }

    /** `proxyImage` up to its fetch. */
    method BeginProxy(file: File, access: Access, opens: bool) returns (served: bool)
      modifies this, meta
      ensures View() == Begin(old(View()), file, access, opens)
      ensures served <==> opens && file in Load(old(View()), access).meta
    {
      LoadMeta(access);
      if file in meta.entries {
        if opens {
          meta.entries := meta.entries[file := meta.entries[file].(lastAccess := now)];
          ScheduleFlush();
          return true;
        }
        meta.entries := meta.entries - {file};
      }
      assert meta.entries - {file} == meta.entries;
      inFlight := inFlight + multiset{file};
      served := false;
    }

    /** `proxyImage` once the fetched image is sealed on disk: it writes to the index bound now, not to the
        one that was bound when it began. */
    method FinishProxy(file: File, contentType: string, size: nat)
      modifies this, meta
      ensures View() == Insert(old(View()), file, contentType, size)
    {
      inFlight := inFlight - multiset{file};
      meta.entries := meta.entries[file := Entry(contentType, size, now)];
      SaveMeta();
    }

    /** What a cleanup pass that removes `gone` does to the index. */
    method SweepIndex(access: Access, gone: set<File>)
      modifies this, meta
      ensures View() == Sweep(old(View()), access, gone)
    {
      LoadMeta(access);
      var removed := gone * meta.entries.Keys;
      if removed != {} {
        meta.entries := meta.entries - removed;
        SaveMeta();
      }
      FlushMeta();
    }
  }

  // ----- What must not be lost -----

  function OnDisk(s: State): Index {
    if s.disk.Sealed? then s.disk.entries else map[]
  }

  /** The files whose entry was stored at the start or inserted, and since then neither swept nor found
      unreadable. */
  function KeptAfter(s: State, kept: set<File>, step: Step): set<File> {
    match step
    case Arrive(file, _, _) => if file in s.inFlight then kept + {file} else kept
    case Request(file, access, opens) => if file in Load(s, access).meta && !opens then kept - {file} else kept
    case Cleanup(access, gone) => kept - gone * Load(s, access).meta.Keys
    case _ => kept
  }

  function Kept(s: State, steps: seq<Step>): set<File> {
    if steps == [] then OnDisk(s).Keys
    else
      var front := steps[..|steps| - 1];
      KeptAfter(Run(s, front), Kept(s, front), steps[|steps| - 1])
  }

  /** The step writes the index although this process never read it, while another file's entry is kept. */
  predicate Overwrites(s: State, kept: set<File>, step: Step) {
    !s.loaded && step.Arrive? && step.file in s.inFlight && kept - {step.file} != {}
  }

  ghost predicate Inv(s: State, kept: set<File>) {
    && kept <= OnDisk(s).Keys
    && (s.loaded ==> kept <= s.meta.Keys)
    && (!s.loaded ==> s.meta == map[] && !s.dirty)
    && (s.dirty ==> s.timerArmed)
    && (s.loaded && !s.dirty ==> forall f <- s.meta :: f in OnDisk(s) && OnDisk(s)[f] == s.meta[f])
    && (forall f <- s.meta ::
          s.meta[f].lastAccess <= s.now && (f in OnDisk(s) ==> OnDisk(s)[f].lastAccess <= s.meta[f].lastAccess))
    && (forall f <- OnDisk(s) :: OnDisk(s)[f].lastAccess <= s.now)
  }

  /** A process start. */
  predicate Initial(s: State) {
    && s.meta == map[] && !s.dirty && !s.timerArmed && !s.loaded && s.inFlight == multiset{}
    && forall f <- OnDisk(s) :: OnDisk(s)[f].lastAccess <= s.now
  }

  lemma LoadKeeps(s: State, kept: set<File>, access: Access)
    requires Inv(s, kept)
    ensures Inv(Load(s, access), kept)
    ensures Load(s, access).inFlight == s.inFlight && OnDisk(Load(s, access)) == OnDisk(s)
  {
  }

  lemma SaveKeeps(s: State, kept: set<File>)
    requires kept <= s.meta.Keys && forall f <- s.meta :: s.meta[f].lastAccess <= s.now
    ensures Inv(Save(s), kept)
  {
  }

  lemma TouchKeeps(s: State, kept: set<File>, file: File)
    requires Inv(s, kept) && s.loaded && file in s.meta
    ensures Inv(Touch(s, file), kept)
  {
  }

  lemma DropKeeps(s: State, kept: set<File>, file: File)
    requires Inv(s, kept)
    ensures Inv(s.(meta := s.meta - {file}, inFlight := s.inFlight + multiset{file}), kept - {file})
  {
  }

  lemma RequestKeeps(s: State, kept: set<File>, file: File, access: Access, opens: bool)
    requires Inv(s, kept)
    ensures Inv(Begin(s, file, access, opens), KeptAfter(s, kept, Request(file, access, opens)))
  {
    LoadKeeps(s, kept, access);
    var t := Load(s, access);
    hide Load;
    if file in t.meta && opens {
      TouchKeeps(t, kept, file);
    } else if t.loaded {
      DropKeeps(t, kept, file);
      assert file !in t.meta ==> kept - {file} == kept;
    } else {
      assert t.meta - {file} == map[];
    }
  }

  lemma ArriveKeeps(s: State, kept: set<File>, file: File, contentType: string, size: nat)
    requires Inv(s, kept) && (s.loaded || kept <= {file})
    ensures Inv(Insert(s, file, contentType, size), kept + {file})
  {
  }

  lemma ArriveOverwrites(s: State, kept: set<File>, file: File, contentType: string, size: nat)
    requires Inv(s, kept) && !s.loaded && kept - {file} != {}
    ensures !(kept + {file} <= OnDisk(Insert(s, file, contentType, size)).Keys)
  {
    var other :| other in kept - {file};
    assert other in kept + {file};
  }

  lemma SweepKeeps(s: State, kept: set<File>, access: Access, gone: set<File>)
    requires Inv(s, kept)
    ensures Inv(Sweep(s, access, gone), KeptAfter(s, kept, Cleanup(access, gone)))
  {
    LoadKeeps(s, kept, access);
    var t := Load(s, access);
    hide Load;
    var removed := gone * t.meta.Keys;
    if removed == {} {
      FlushKeeps(t, kept);
    } else {
      var left := t.(meta := t.meta - removed);
      assert kept - removed <= left.meta.Keys;
      SaveKeeps(left, kept - removed);
      FlushKeeps(Save(left), kept - removed);
    }
  }

  lemma FlushKeeps(s: State, kept: set<File>)
    requires Inv(s, kept)
    ensures forall fewer: set<File> :: fewer <= kept ==> Inv(Flush(s), fewer)
  {
    if s.dirty {
      SaveKeeps(s.(timerArmed := false), kept);
    }
  }

  /** One step keeps every entry that is to be kept, arms a timer for every unsaved mark and never makes the
      recency on disk newer than the one in memory, exactly when it is no unread write beside another entry. */
  lemma StepKeepsExactly(s: State, kept: set<File>, step: Step)
    requires Inv(s, kept)
    ensures Inv(Apply(s, step), KeptAfter(s, kept, step)) <==> !Overwrites(s, kept, step)
    ensures Overwrites(s, kept, step) ==> !(KeptAfter(s, kept, step) <= OnDisk(Apply(s, step)).Keys)
  {
    match step
    case Request(file, access, opens) =>
      RequestKeeps(s, kept, file, access, opens);
    case Arrive(file, contentType, size) =>
      if file in s.inFlight {
        hide Insert, OnDisk;
        if Overwrites(s, kept, step) {
          ArriveOverwrites(s, kept, file, contentType, size);
        } else {
          ArriveKeeps(s, kept, file, contentType, size);
        }
      }
    case TimerFires =>
      FlushKeeps(s, kept);
    case Cleanup(access, gone) =>
      SweepKeeps(s, kept, access, gone);
    case _ =>
  }

  ghost predicate NeverOverwrites(s: State, steps: seq<Step>) {
    forall i | 0 <= i < |steps| :: !Overwrites(Run(s, steps[..i]), Kept(s, steps[..i]), steps[i])
  }

  ghost predicate KeptOnDisk(s: State, steps: seq<Step>) {
    Kept(s, steps) <= OnDisk(Run(s, steps)).Keys
  }

  /** The entries to be kept are on disk after every part of a run. */
  ghost predicate AlwaysOnDisk(s: State, steps: seq<Step>) {
    forall i | 0 <= i <= |steps| :: KeptOnDisk(s, steps[..i])
  }

  lemma LastStep(s: State, steps: seq<Step>)
    requires steps != []
    ensures var front, last := steps[..|steps| - 1], steps[|steps| - 1];
            && Run(s, steps) == Apply(Run(s, front), last)
            && Kept(s, steps) == KeptAfter(Run(s, front), Kept(s, front), last)
  {
  }

  lemma FrontOf(s: State, steps: seq<Step>)
    requires steps != []
    ensures var front, n := steps[..|steps| - 1], |steps| - 1;
            NeverOverwrites(s, steps) <==>
              NeverOverwrites(s, front) && !Overwrites(Run(s, front), Kept(s, front), steps[n])
  {
    var front := steps[..|steps| - 1];
    hide Overwrites, Run, Kept;
    assert forall i | 0 <= i < |front| :: steps[..i] == front[..i] && steps[i] == front[i];
    if NeverOverwrites(s, steps) {
      forall i | 0 <= i < |front| ensures !Overwrites(Run(s, front[..i]), Kept(s, front[..i]), front[i]) {
        assert steps[..i] == front[..i];
      }
      assert steps[..|steps| - 1] == front;
    }
    if NeverOverwrites(s, front) && !Overwrites(Run(s, front), Kept(s, front), steps[|steps| - 1]) {
      forall i | 0 <= i < |steps| ensures !Overwrites(Run(s, steps[..i]), Kept(s, steps[..i]), steps[i]) {
        assert steps[..i] == if i < |front| then front[..i] else front;
      }
    }
  }

  /** Over any run without such a write: an entry stored or inserted is in memory and on disk until a sweep
      takes it or its file fails to open; a mark not yet written has its timer armed; and the recency on disk
      is never newer than the one in memory. */
  lemma {:induction false} InvOverRuns(s: State, steps: seq<Step>)
    requires Initial(s) && NeverOverwrites(s, steps)
    ensures Inv(Run(s, steps), Kept(s, steps))
  {
    if steps != [] {
      var front := steps[..|steps| - 1];
      FrontOf(s, steps);
      LastStep(s, steps);
      hide Overwrites, NeverOverwrites, Inv, KeptAfter, Apply, Run, Kept;
      InvOverRuns(s, front);
      StepKeepsExactly(Run(s, front), Kept(s, front), steps[|steps| - 1]);
    }
  }

  lemma {:induction false} OverwriteShows(s: State, steps: seq<Step>) returns (i: nat)
    requires Initial(s) && !NeverOverwrites(s, steps)
    ensures i <= |steps| && !KeptOnDisk(s, steps[..i])
  {
    hide *;
    NeverBeforeTheFirst(s);
    i := |steps|;
    assert steps != [];
    var front := steps[..|steps| - 1];
    FrontOf(s, steps);
    if NeverOverwrites(s, front) {
      LastOverwriteShows(s, steps);
      assert steps[..|steps|] == steps;
    } else {
      i := OverwriteShows(s, front);
      assert front[..i] == steps[..i];
    }
  }

  lemma NeverBeforeTheFirst(s: State)
    ensures NeverOverwrites(s, [])
  {
  }

  lemma LastOverwriteShows(s: State, steps: seq<Step>)
    requires Initial(s) && steps != [] && NeverOverwrites(s, steps[..|steps| - 1])
    requires var front := steps[..|steps| - 1]; Overwrites(Run(s, front), Kept(s, front), steps[|steps| - 1])
    ensures !KeptOnDisk(s, steps)
  {
    var front := steps[..|steps| - 1];
    LastStep(s, steps);
    hide Overwrites, NeverOverwrites, Inv, KeptAfter, Apply, Run, Kept, OnDisk;
    InvOverRuns(s, front);
    StepKeepsExactly(Run(s, front), Kept(s, front), steps[|steps| - 1]);
  }

  /** Over any interleaving of hits, misses awaiting their fetch, flushes, sweeps and restarts: the entries to
      be kept are on disk at every point exactly when the index is never written by a process that has not
      read it while another entry is kept. */
  lemma KeptOnDiskExactly(s: State, steps: seq<Step>)
    requires Initial(s)
    ensures AlwaysOnDisk(s, steps) <==> NeverOverwrites(s, steps)
  {
    hide NeverOverwrites, Run, Kept, Overwrites;
    if NeverOverwrites(s, steps) {
      forall i | 0 <= i <= |steps| ensures KeptOnDisk(s, steps[..i]) {
        NeverInPart(s, steps, i);
        InvOverRuns(s, steps[..i]);
      }
    } else {
      var i := OverwriteShows(s, steps);
    }
  }

  lemma NeverInPart(s: State, steps: seq<Step>, n: nat)
    requires n <= |steps| && NeverOverwrites(s, steps)
    ensures NeverOverwrites(s, steps[..n])
  {
    hide Overwrites, Run, Kept;
    forall i | 0 <= i < n
      ensures !Overwrites(Run(s, steps[..n][..i]), Kept(s, steps[..n][..i]), steps[..n][i])
    {
      assert steps[..n][..i] == steps[..i] && steps[..n][i] == steps[i];
    }
  }

  /** A start whose first reads of the index fail replaces a good index with one entry. */
  lemma FirstReadsFailing(s: State, file: File, other: File)
    requires Initial(s) && other in OnDisk(s) && other != file
    ensures var steps := [Request(file, ReadFails, true), Arrive(file, "image/png", 1)];
            OnDisk(Run(s, steps)).Keys == {file} && !NeverOverwrites(s, steps)
  {
    var steps := [Request(file, ReadFails, true), Arrive(file, "image/png", 1)];
    assert steps[..1] == [steps[0]] && [steps[0]][..0] == [];
    assert Run(s, []) == s;
    var t := Run(s, [steps[0]]);
    assert t == Begin(s, file, ReadFails, true);
    assert Kept(s, []) == OnDisk(s).Keys && other in Kept(s, [steps[0]]) - {file};
    assert steps[1] == Arrive(file, "image/png", 1) && Overwrites(t, Kept(s, steps[..1]), steps[1]);
  }

  /** Nothing enters the index that was not there at the start or fetched since. */
  lemma {:induction false} NothingInvented(s: State, steps: seq<Step>)
    requires Initial(s)
    ensures var t := Run(s, steps);
            forall f :: f in t.meta || f in OnDisk(t) ==>
              f in OnDisk(s) || exists i | 0 <= i < |steps| :: steps[i].Arrive? && steps[i].file == f
  {
    if steps != [] {
      var front, last := steps[..|steps| - 1], steps[|steps| - 1];
      NothingInvented(s, front);
      var before := Run(s, front);
      var t := Run(s, steps);
      forall f | f in t.meta || f in OnDisk(t)
        ensures f in OnDisk(s) || exists i | 0 <= i < |steps| :: steps[i].Arrive? && steps[i].file == f
      {
        StepInventsNothing(before, last, f);
        if last.Arrive? && last.file == f {
          assert steps[|steps| - 1].Arrive?;
        } else if f !in OnDisk(s) {
          var i :| 0 <= i < |front| && front[i].Arrive? && front[i].file == f;
          assert steps[i] == front[i];
        }
      }
    }
  }

  lemma LoadInventsNothing(s: State, access: Access)
    ensures var t := Load(s, access);
            && OnDisk(t) == OnDisk(s) && t.meta.Keys <= s.meta.Keys + OnDisk(s).Keys
            && (t.dirty <==> s.dirty)
  {
  }

  lemma StepInventsNothing(s: State, step: Step, f: File)
    requires var t := Apply(s, step); f in t.meta || f in OnDisk(t)
    ensures f in s.meta || f in OnDisk(s) || (step.Arrive? && step.file == f)
  {
    match step
    case Request(_, access, _) =>
      LoadInventsNothing(s, access);
      hide Load;
    case Cleanup(access, _) =>
      LoadInventsNothing(s, access);
      hide Load;
    case _ =>
  }
}
