/** The cleanup pass over the image cache (image-proxy.ts, image-cache-index.ts): an age window and a quota
    over the files the index claims and the ones it does not. Sizes are the recorded ones. */
module ImageCleanup {
  import opened Sequences

  type File = string

  const MAX_UNINDEXED_STATS: nat := 2000

  /** The quota in bytes and the age window in milliseconds, read from the environment at start. */
  datatype Limits = Limits(quota: nat, maxAge: int)

  /** An index entry, or an unclaimed file with its modification time standing in for the last access. */
  datatype Item = Item(file: File, size: nat, lastAccess: int)
  datatype Unclaimed = Unclaimed(item: Item, isSealed: bool)

  /** A name in the cache directory; `item` is what a stat of it gives, if it is a regular file. */
  datatype DirName = DirName(file: File, isHexName: bool, isRegular: bool, item: Item, isSealed: bool)

  function BytesOf(x: Item): nat {
    x.size
  }

  function Sum(items: seq<Item>): nat {
    Weighed(items, BytesOf)
  }

  lemma SumNext(items: seq<Item>, x: Item)
    ensures Sum(items + [x]) == Sum(items) + x.size
  {
    WeighedJoin(items, [x], BytesOf);
    assert Sum([x]) == x.size;
  }

  // ----- Coldest first -----

  /** The stable sort by last access. */
  function Placed(sorted: seq<Item>, x: Item): seq<Item> {
    if sorted == [] || sorted[|sorted| - 1].lastAccess <= x.lastAccess then sorted + [x]
    else Placed(sorted[..|sorted| - 1], x) + [sorted[|sorted| - 1]]
  }

  function Coldest(items: seq<Item>): seq<Item> {
    if items == [] then [] else Placed(Coldest(items[..|items| - 1]), items[|items| - 1])
  }

  predicate ColdestFirst(items: seq<Item>) {
    forall i, j | 0 <= i < j < |items| :: items[i].lastAccess <= items[j].lastAccess
  }

  lemma {:induction false} PlacedHolds(sorted: seq<Item>, x: Item)
    ensures multiset(Placed(sorted, x)) == multiset(sorted) + multiset{x}
    ensures Sum(Placed(sorted, x)) == Sum(sorted) + x.size
  {
    if sorted == [] || sorted[|sorted| - 1].lastAccess <= x.lastAccess {
      WeighedJoin(sorted, [x], BytesOf);
      assert Sum([x]) == x.size;
    } else {
      var front, last := sorted[..|sorted| - 1], sorted[|sorted| - 1];
      PlacedHolds(front, x);
      assert sorted == front + [last];
      WeighedJoin(front, [last], BytesOf);
      WeighedJoin(Placed(front, x), [last], BytesOf);
    }
  }

  lemma {:induction false} PlacedAscends(sorted: seq<Item>, x: Item)
    requires ColdestFirst(sorted)
    ensures ColdestFirst(Placed(sorted, x)) && Placed(sorted, x) != []
    ensures var last := Placed(sorted, x)[|Placed(sorted, x)| - 1];
            last == x || (sorted != [] && last == sorted[|sorted| - 1])
  {
    if sorted != [] && sorted[|sorted| - 1].lastAccess > x.lastAccess {
      var front, last := sorted[..|sorted| - 1], sorted[|sorted| - 1];
      PlacedAscends(front, x);
      var placed := Placed(front, x);
      assert placed[|placed| - 1].lastAccess <= last.lastAccess;
    }
  }

  lemma {:induction false} ColdestSorts(items: seq<Item>)
    ensures ColdestFirst(Coldest(items)) && multiset(Coldest(items)) == multiset(items)
            && Sum(Coldest(items)) == Sum(items)
  {
    if items != [] {
      var front, last := items[..|items| - 1], items[|items| - 1];
      assert Coldest(items) == Placed(Coldest(front), last);
      hide Placed, ColdestFirst, Sum, Coldest;
      assert items == front + [last];
      ColdestSorts(front);
      PlacedHolds(Coldest(front), last);
      PlacedAscends(Coldest(front), last);
      SumNext(front, last);
    } else {
      assert Coldest(items) == items;
    }
  }

  /** How many of `cold` the quota takes, from the front, when `total` bytes are held. */
  function Evicted(total: nat, cold: seq<Item>, quota: nat): (n: nat)
    requires Sum(cold) <= total
    ensures n <= |cold|
    decreases |cold|
  {
    if cold == [] || total <= quota then 0 else 1 + Evicted(total - cold[0].size, cold[1..], quota)
  }

  /** Eviction stops as soon as the rest fits, and not before unless nothing is left. */
  lemma {:induction false} EvictedIsLeast(total: nat, cold: seq<Item>, quota: nat)
    requires Sum(cold) <= total
    ensures var n := Evicted(total, cold, quota);
            && Sum(cold[..n]) <= total
            && (n < |cold| ==> total - Sum(cold[..n]) <= quota)
            && (n > 0 ==> total - Sum(cold[..n - 1]) > quota)
    decreases |cold|
  {
    if cold != [] && total > quota {
      EvictedIsLeast(total - cold[0].size, cold[1..], quota);
      var n := Evicted(total, cold, quota);
      assert cold[..n] == [cold[0]] + cold[1..][..n - 1];
      if n > 1 {
        assert cold[..n - 1] == [cold[0]] + cold[1..][..n - 2];
      }
    }
  }

  // ----- The pass, as a decision -----

  predicate TooOld(i: Item, now: int, l: Limits) {
    now - i.lastAccess > l.maxAge
  }

  function Expired(now: int, l: Limits): Item -> bool {
    (i: Item) => TooOld(i, now, l)
  }

  function Live(now: int, l: Limits): Item -> bool {
    (i: Item) => !TooOld(i, now, l)
  }

  function Leaving(now: int, l: Limits): Unclaimed -> bool {
    (u: Unclaimed) => !u.isSealed || TooOld(u.item, now, l)
  }

  function Staying(now: int, l: Limits): Unclaimed -> bool {
    (u: Unclaimed) => u.isSealed && !TooOld(u.item, now, l)
  }

  function ItemsOf(files: seq<Unclaimed>): (items: seq<Item>)
    ensures |items| == |files| && forall i | 0 <= i < |files| :: items[i] == files[i].item
  {
    if files == [] then [] else ItemsOf(files[..|files| - 1]) + [files[|files| - 1].item]
  }

  datatype Plan = Plan(cold: seq<Item>, evicted: nat, coldFiles: seq<Item>, evictedFiles: nat)

  /** What the quota takes of the live entries and of the unclaimed files, each class coldest first. */
  function QuotaPlan(live: seq<Item>, own: seq<Item>, quota: nat): (p: Plan)
    ensures p.evicted <= |p.cold| && p.evictedFiles <= |p.coldFiles|
  {
    ColdestSorts(live);
    ColdestSorts(own);
    var cold, coldFiles, total := Coldest(live), Coldest(own), Sum(live) + Sum(own);
    var n := if total > quota then Evicted(total, cold, quota) else 0;
    Halves(cold, n);
    Plan(cold, n, coldFiles, Evicted(total - Sum(cold[..n]), coldFiles, quota))
  }

  lemma Halves(items: seq<Item>, n: nat)
    requires n <= |items|
    ensures Sum(items) == Sum(items[..n]) + Sum(items[n..])
    ensures n == |items| ==> Sum(items[n..]) == 0
  {
    WeighedJoin(items[..n], items[n..], BytesOf);
    assert items[..n] + items[n..] == items;
  }

  function PlanOf(index: seq<Item>, files: seq<Unclaimed>, now: int, l: Limits): (p: Plan)
    ensures p.evicted <= |p.cold| && p.evictedFiles <= |p.coldFiles|
  {
    QuotaPlan(Filter(index, Live(now, l)), ItemsOf(Filter(files, Staying(now, l))), l.quota)
  }

  function RemovedEntries(index: seq<Item>, files: seq<Unclaimed>, now: int, l: Limits): seq<Item> {
    var p := PlanOf(index, files, now, l);
    Filter(index, Expired(now, l)) + p.cold[..p.evicted]
  }

  function RemovedFiles(index: seq<Item>, files: seq<Unclaimed>, now: int, l: Limits): seq<Item> {
    var p := PlanOf(index, files, now, l);
    ItemsOf(Filter(files, Leaving(now, l))) + p.coldFiles[..p.evictedFiles]
  }

  /** What a plan guarantees: the bytes kept fit the quota; each class goes coldest first and no further than
      it must; an unclaimed file goes for the quota only once every live entry has. */
  ghost predicate MeetsQuota(p: Plan, quota: nat)
    requires p.evicted <= |p.cold| && p.evictedFiles <= |p.coldFiles|
  {
    var total := Sum(p.cold) + Sum(p.coldFiles);
    var left := total - Sum(p.cold[..p.evicted]);
    && Sum(p.cold[p.evicted..]) + Sum(p.coldFiles[p.evictedFiles..]) <= quota
    && (forall i, j | 0 <= i < p.evicted <= j < |p.cold| :: p.cold[i].lastAccess <= p.cold[j].lastAccess)
    && (forall i, j | 0 <= i < p.evictedFiles <= j < |p.coldFiles| ::
          p.coldFiles[i].lastAccess <= p.coldFiles[j].lastAccess)
    && (p.evicted > 0 ==> total - Sum(p.cold[..p.evicted - 1]) > quota)
    && (p.evictedFiles > 0 ==> p.evicted == |p.cold| && left - Sum(p.coldFiles[..p.evictedFiles - 1]) > quota)
  }

  lemma PassMeetsQuota(index: seq<Item>, files: seq<Unclaimed>, now: int, l: Limits)
    ensures MeetsQuota(PlanOf(index, files, now, l), l.quota)
  {
    var live, own := Filter(index, Live(now, l)), ItemsOf(Filter(files, Staying(now, l)));
    hide Filter, ItemsOf, Coldest, Sum, Evicted;
    ColdestSorts(live);
    ColdestSorts(own);
    var p, total := QuotaPlan(live, own, l.quota), Sum(live) + Sum(own);
    if total > l.quota {
      EvictedIsLeast(total, p.cold, l.quota);
    } else {
      assert p.cold[..0] == [];
    }
    Halves(p.cold, p.evicted);
    EvictedIsLeast(total - Sum(p.cold[..p.evicted]), p.coldFiles, l.quota);
    Halves(p.coldFiles, p.evictedFiles);
  }

  /** Every index entry is either kept or was expired or taken by the quota, once. */
  lemma EntriesAccountedFor(index: seq<Item>, files: seq<Unclaimed>, now: int, l: Limits)
    ensures var p := PlanOf(index, files, now, l);
            multiset(index) == multiset(RemovedEntries(index, files, now, l)) + multiset(p.cold[p.evicted..])
  {
    hide Coldest, Sum, Evicted, ItemsOf, Filter;
    var p := PlanOf(index, files, now, l);
    FilterPartition(index, Expired(now, l), Live(now, l));
    ColdestSorts(Filter(index, Live(now, l)));
    assert p.cold == p.cold[..p.evicted] + p.cold[p.evicted..];
  }

  /** Every listed file is either kept or was unsealed, expired or taken by the quota, once. */
  lemma FilesAccountedFor(index: seq<Item>, files: seq<Unclaimed>, now: int, l: Limits)
    ensures var p := PlanOf(index, files, now, l);
            && multiset(ItemsOf(files))
               == multiset(RemovedFiles(index, files, now, l)) + multiset(p.coldFiles[p.evictedFiles..])
            && forall i <- p.coldFiles :: Unclaimed(i, true) in files && !TooOld(i, now, l)
  {
    hide Coldest, Sum, Evicted, ItemsOf;
    var p := PlanOf(index, files, now, l);
    var staying := Filter(files, Staying(now, l));
    ItemsPartition(files, now, l);
    FilterMembers(files, Staying(now, l));
    ColdestSorts(ItemsOf(staying));
    assert p.coldFiles == p.coldFiles[..p.evictedFiles] + p.coldFiles[p.evictedFiles..];
    forall i <- p.coldFiles ensures Unclaimed(i, true) in files && !TooOld(i, now, l) {
      assert i in multiset(p.coldFiles);
      var k :| 0 <= k < |staying| && ItemsOf(staying)[k] == i;
      assert staying[k] in staying;
      assert staying[k] == Unclaimed(i, true);
    }
  }

  lemma {:induction false} ItemsPartition(files: seq<Unclaimed>, now: int, l: Limits)
    ensures Splits(ItemsOf(Filter(files, Leaving(now, l))), ItemsOf(Filter(files, Staying(now, l))), ItemsOf(files))
  {
    if files != [] {
      hide ItemsOf, Splits, Filter;
      var front, last := files[..|files| - 1], files[|files| - 1];
      assert files == front + [last];
      ItemsPartition(front, now, l);
      ItemsNext(front, last);
      var leaving, staying := Filter(front, Leaving(now, l)), Filter(front, Staying(now, l));
      FilterLast(front, last, Leaving(now, l));
      FilterLast(front, last, Staying(now, l));
      ItemsNext(leaving, last);
      ItemsNext(staying, last);
      SplitsNext(ItemsOf(leaving), ItemsOf(staying), ItemsOf(front), last.item);
    }
  }

  lemma ItemsNext(files: seq<Unclaimed>, u: Unclaimed)
    ensures ItemsOf(files + [u]) == ItemsOf(files) + [u.item]
  {
    assert (files + [u])[..|files|] == files;
  }

  // ----- The pass, as it runs -----

  function FilesOf(items: seq<Item>): set<File> {
    set i <- items :: i.file
  }

  ghost predicate DistinctFiles(index: seq<Item>) {
    forall i, j | 0 <= i < j < |index| :: index[i].file != index[j].file
  }

  function NotIn(files: set<File>): Item -> bool {
    (i: Item) => i.file !in files
  }

  function NameNotIn(files: set<File>): DirName -> bool {
    (d: DirName) => d.file !in files
  }

  /** The unclaimed cache files a pass looks at: in directory order, at most the stat limit. */
  function Listing(names: seq<DirName>, claimed: set<File>): (files: seq<Unclaimed>)
    ensures |files| <= MAX_UNINDEXED_STATS
  {
    if names == [] then []
    else
      var before, last := Listing(names[..|names| - 1], claimed), names[|names| - 1];
      if |before| >= MAX_UNINDEXED_STATS || last.file in claimed || !last.isHexName || !last.isRegular then before
      else before + [Unclaimed(last.item, last.isSealed)]
  }

  /** Leaving out the keys of the expired entries leaves the live ones. */
  lemma {:induction false} LiveByKey(index: seq<Item>, front: nat, now: int, l: Limits)
    requires DistinctFiles(index) && front <= |index|
    ensures Filter(index[..front], NotIn(FilesOf(Filter(index, Expired(now, l)))))
            == Filter(index[..front], Live(now, l))
  {
    var gone := FilesOf(Filter(index, Expired(now, l)));
    if front > 0 {
      LiveByKey(index, front - 1, now, l);
      FilterPrefix(index, front - 1, NotIn(gone));
      FilterPrefix(index, front - 1, Live(now, l));
      var last := index[front - 1];
      FilterMembers(index, Expired(now, l));
      if last.file in gone {
        var other :| other in Filter(index, Expired(now, l)) && other.file == last.file;
        var k :| 0 <= k < |index| && index[k] == other;
        assert k == front - 1;
      }
      assert last.file in gone <==> TooOld(last, now, l);
    }
  }

  class ImageCache {
    var meta: seq<Item>
    var directory: seq<DirName>

    constructor (meta: seq<Item>, directory: seq<DirName>)
      ensures this.meta == meta && this.directory == directory
    {
      this.meta, this.directory := meta, directory;
    }

    method ListUnindexedFiles() returns (files: seq<Unclaimed>)
      ensures files == Listing(directory, FilesOf(meta))
    {
      var claimed := FilesOf(meta);
      files := [];
      for i := 0 to |directory|
        invariant files == Listing(directory[..i], claimed)
      {
        assert directory[..i + 1][..i] == directory[..i];
        if |files| >= MAX_UNINDEXED_STATS {
          FullListing(directory, i, claimed);
          return;
        }
        var name := directory[i];
        if name.file !in claimed && name.isHexName && name.isRegular {
          files := files + [Unclaimed(name.item, name.isSealed)];
        }
      }
      assert directory[..|directory|] == directory;
    }

    /** The age rule over the index: what goes, and the bytes that stay. */
    method SweepIndex(now: int, l: Limits) returns (keysToRemove: seq<Item>, totalBytes: nat)
      ensures keysToRemove == Filter(meta, Expired(now, l)) && totalBytes == Sum(Filter(meta, Live(now, l)))
    {
      keysToRemove, totalBytes := [], 0;
      for i := 0 to |meta|
        invariant keysToRemove == Filter(meta[..i], Expired(now, l))
        invariant totalBytes == Sum(Filter(meta[..i], Live(now, l)))
      {
        FilterPrefix(meta, i, Expired(now, l));
        FilterPrefix(meta, i, Live(now, l));
        SumNext(Filter(meta[..i], Live(now, l)), meta[i]);
        if TooOld(meta[i], now, l) {
          assert Filter(meta[..i + 1], Live(now, l)) == Filter(meta[..i], Live(now, l));
          keysToRemove := keysToRemove + [meta[i]];
        } else {
          totalBytes := totalBytes + meta[i].size;
        }
      }
      assert meta[..|meta|] == meta;
    }

    /** The seal and age rules over the unclaimed files. */
    static method SweepFiles(files: seq<Unclaimed>, now: int, l: Limits)
        returns (toRemove: seq<Item>, staying: seq<Item>)
      ensures toRemove == ItemsOf(Filter(files, Leaving(now, l))) && staying == ItemsOf(Filter(files, Staying(now, l)))
    {
      toRemove, staying := [], [];
      for i := 0 to |files|
        invariant toRemove == ItemsOf(Filter(files[..i], Leaving(now, l)))
        invariant staying == ItemsOf(Filter(files[..i], Staying(now, l)))
      {
        FilterPrefix(files, i, Leaving(now, l));
        FilterPrefix(files, i, Staying(now, l));
        ItemsNext(Filter(files[..i], Leaving(now, l)), files[i]);
        ItemsNext(Filter(files[..i], Staying(now, l)), files[i]);
        if !files[i].isSealed || TooOld(files[i].item, now, l) {
          toRemove := toRemove + [files[i].item];
        } else {
          staying := staying + [files[i].item];
        }
      }
      assert files[..|files|] == files;
    }

    /** The eviction loop of either class. */
    static method EvictColdest(cold: seq<Item>, held: nat, quota: nat) returns (n: nat, totalBytes: nat)
      requires Sum(cold) <= held
      ensures n == Evicted(held, cold, quota) && Sum(cold[..n]) <= held && totalBytes == held - Sum(cold[..n])
    {
      n, totalBytes := 0, held;
      assert cold[..0] == [] && cold[0..] == cold;
      while n < |cold| && totalBytes > quota
        invariant n <= |cold| && Sum(cold[n..]) <= totalBytes
        invariant Sum(cold[..n]) + totalBytes == held
        invariant n + Evicted(totalBytes, cold[n..], quota) == Evicted(held, cold, quota)
      {
        assert cold[n..][1..] == cold[n + 1..];
        assert cold[..n + 1] == cold[..n] + [cold[n]];
        SumNext(cold[..n], cold[n]);
        totalBytes := totalBytes - cold[n].size;
        n := n + 1;
      }
    }

    /** Unlinks what goes and forgets the entries; an unlink may fail, the entry goes all the same. */
    method Remove(keysToRemove: seq<Item>, filesToRemove: seq<Item>) returns (ghost unlinked: set<File>)
      modifies this
      ensures meta == Filter(old(meta), NotIn(FilesOf(keysToRemove)))
      ensures unlinked <= FilesOf(keysToRemove) + FilesOf(filesToRemove)
      ensures directory == Filter(old(directory), NameNotIn(unlinked))
    {
      unlinked := {};
      assert FilesOf(keysToRemove[..0]) == {};
      KeepAll(meta);
      KeepAllNames(directory);
      for i := 0 to |keysToRemove|
        invariant meta == Filter(old(meta), NotIn(FilesOf(keysToRemove[..i])))
        invariant unlinked <= FilesOf(keysToRemove)
        invariant directory == Filter(old(directory), NameNotIn(unlinked))
      {
        var key := keysToRemove[i].file;
        assert keysToRemove[..i + 1] == keysToRemove[..i] + [keysToRemove[i]];
        assert FilesOf(keysToRemove[..i + 1]) == FilesOf(keysToRemove[..i]) + {key};
        FilterTwice(old(meta), FilesOf(keysToRemove[..i]), {key});
        meta := Filter(meta, NotIn({key}));
        var fails: bool := *;
        if !fails {
          FilterNamesTwice(old(directory), unlinked, {key});
          directory := Filter(directory, NameNotIn({key}));
          unlinked := unlinked + {key};
        }
      }
      assert keysToRemove[..|keysToRemove|] == keysToRemove;
      for i := 0 to |filesToRemove|
        invariant meta == Filter(old(meta), NotIn(FilesOf(keysToRemove)))
        invariant unlinked <= FilesOf(keysToRemove) + FilesOf(filesToRemove)
        invariant directory == Filter(old(directory), NameNotIn(unlinked))
      {
        var file := filesToRemove[i].file;
        var fails: bool := *;
        if !fails {
          FilterNamesTwice(old(directory), unlinked, {file});
          directory := Filter(directory, NameNotIn({file}));
          unlinked := unlinked + {file};
        }
      }
    }

    /** The whole pass. */
    method RunCacheCleanup(now: int, l: Limits) returns (ghost unlinked: set<File>)
      requires DistinctFiles(meta)
      modifies this
      ensures var files := Listing(old(directory), FilesOf(old(meta)));
              var entries, strays := RemovedEntries(old(meta), files, now, l), RemovedFiles(old(meta), files, now, l);
              && meta == Filter(old(meta), NotIn(FilesOf(entries)))
              && unlinked <= FilesOf(entries) + FilesOf(strays)
              && directory == Filter(old(directory), NameNotIn(unlinked))
    {
      hide Filter, Listing, Coldest, Sum, Evicted, ItemsOf, FilesOf, NotIn, NameNotIn, DistinctFiles;
      var keysToRemove, totalBytes := SweepIndex(now, l);
      var files := ListUnindexedFiles();
      var filesToRemove, unindexed := SweepFiles(files, now, l);
      totalBytes := totalBytes + Sum(unindexed);
      LiveByKey(meta, |meta|, now, l);
      assert meta[..|meta|] == meta;
      var sorted := Coldest(Filter(meta, NotIn(FilesOf(keysToRemove))));
      ColdestSorts(Filter(meta, Live(now, l)));
      ColdestSorts(unindexed);
      var n := 0;
      if totalBytes > l.quota {
        n, totalBytes := EvictColdest(sorted, totalBytes, l.quota);
      }
      var coldFiles := Coldest(unindexed);
      Halves(sorted, n);
      var m;
      m, totalBytes := EvictColdest(coldFiles, totalBytes, l.quota);
      unlinked := Remove(keysToRemove + sorted[..n], filesToRemove + coldFiles[..m]);
    }
  }

  lemma {:induction false} FullListing(names: seq<DirName>, i: nat, claimed: set<File>)
    requires i <= |names| && |Listing(names[..i], claimed)| >= MAX_UNINDEXED_STATS
    ensures Listing(names, claimed) == Listing(names[..i], claimed)
    decreases |names| - i
  {
    if i == |names| {
      assert names[..i] == names;
    } else {
      assert names[..i + 1][..i] == names[..i];
      FullListing(names, i + 1, claimed);
    }
  }

  lemma {:induction false} KeepAll(items: seq<Item>)
    ensures Filter(items, NotIn({})) == items
  {
    if items != [] {
      KeepAll(items[..|items| - 1]);
    }
  }

  lemma {:induction false} KeepAllNames(names: seq<DirName>)
    ensures Filter(names, NameNotIn({})) == names
  {
    if names != [] {
      KeepAllNames(names[..|names| - 1]);
    }
  }

  lemma {:induction false} FilterTwice(items: seq<Item>, a: set<File>, b: set<File>)
    ensures Filter(Filter(items, NotIn(a)), NotIn(b)) == Filter(items, NotIn(a + b))
  {
    if items != [] {
      var front, last := items[..|items| - 1], items[|items| - 1];
      FilterTwice(front, a, b);
      var kept := Filter(front, NotIn(a));
      assert (kept + [last])[..|kept|] == kept;
    }
  }

  lemma {:induction false} FilterNamesTwice(names: seq<DirName>, a: set<File>, b: set<File>)
    ensures Filter(Filter(names, NameNotIn(a)), NameNotIn(b)) == Filter(names, NameNotIn(a + b))
  {
    if names != [] {
      var front, last := names[..|names| - 1], names[|names| - 1];
      FilterNamesTwice(front, a, b);
      var kept := Filter(front, NameNotIn(a));
      assert (kept + [last])[..|kept|] == kept;
    }
  }

  lemma {:induction false} DistinctOnce(index: seq<Item>, x: Item)
    requires DistinctFiles(index)
    ensures multiset(index)[x] <= 1
    ensures forall y <- index :: x in index && y.file == x.file ==> y == x
  {
    if index != [] {
      var front, last := index[..|index| - 1], index[|index| - 1];
      assert index == front + [last];
      DistinctOnce(front, x);
      assert forall y <- front :: y.file != last.file;
    }
  }

  /** The index a pass leaves is exactly the live entries the quota did not take. */
  lemma IndexKeepsExactlyTheRest(index: seq<Item>, files: seq<Unclaimed>, now: int, l: Limits)
    requires DistinctFiles(index)
    ensures var p := PlanOf(index, files, now, l);
            multiset(Filter(index, NotIn(FilesOf(RemovedEntries(index, files, now, l)))))
            == multiset(p.cold[p.evicted..])
  {
    var p, removed := PlanOf(index, files, now, l), RemovedEntries(index, files, now, l);
    var kept, gone := p.cold[p.evicted..], FilesOf(removed);
    EntriesAccountedFor(index, files, now, l);
    FilterPartition(index, NotIn(gone), (i: Item) => i.file in gone);
    FilterMembers(index, NotIn(gone));
    FilterMembers(index, (i: Item) => i.file in gone);
    hide PlanOf, RemovedEntries, Filter, DistinctFiles;
    forall x ensures multiset(Filter(index, NotIn(gone)))[x] == multiset(kept)[x] {
      KeptOrGone(index, removed, kept, x);
    }
  }

  lemma KeptOrGone(index: seq<Item>, removed: seq<Item>, kept: seq<Item>, x: Item)
    requires DistinctFiles(index) && multiset(index) == multiset(removed) + multiset(kept)
    ensures multiset(Filter(index, NotIn(FilesOf(removed))))[x] == multiset(kept)[x]
  {
    var gone := FilesOf(removed);
    var stays, goes := Filter(index, NotIn(gone)), Filter(index, (i: Item) => i.file in gone);
    FilterPartition(index, NotIn(gone), (i: Item) => i.file in gone);
    FilterMembers(index, NotIn(gone));
    FilterMembers(index, (i: Item) => i.file in gone);
    DistinctOnce(index, x);
    assert multiset(stays) + multiset(goes) == multiset(index);
    forall y <- removed ensures y in index {
      assert y in multiset(removed);
      assert y in multiset(index);
    }
    if x in multiset(kept) {
      assert x in multiset(index) && x !in multiset(removed);
      forall y <- removed ensures y.file != x.file { assert y in multiset(removed); }
      assert x !in goes && x !in multiset(goes);
    } else if x in multiset(removed) {
      assert x.file in gone && x !in stays && x !in multiset(stays);
    } else {
      assert x !in multiset(index);
    }
  }
}
