/**
 Hidden entries: leaving them out is walking a filesystem that does not have them, and no walk
 of either kind, however disturbed, reports anything but what its events mean
 (src/walk/bc_io_walk_sequential.c:106-108, src/walk/bc_io_walk_parallel.c:119-121).
 */
module WalkHidden {
  import opened Bytes
  import opened WalkReference
  import opened WalkStats
  import opened WalkProtocol
  import opened WalkTheorems
  import opened WalkMeaning
  import opened SequentialWalk
  import opened SequentialResult
  import PathJoin
  import SequentialInterruption
  import WalkOnce

  predicate StartsWithDot(name: bytes) {
    |name| > 0 && name[0] == 46
  }

  // ---------- a filesystem without hidden entries ----------

  function Unhidden(entries: seq<Entry>): seq<Entry> {
    if entries == [] then []
    else (if StartsWithDot(entries[0].name) then [] else [entries[0]]) + Unhidden(entries[1..])
  }

  /** The same filesystem without its hidden entries. */
  function WithoutHidden(cfg: Config): Config {
    cfg.(open := path =>
      match cfg.open(path)
      case None => None
      case Some(listing) => Some(Listing(Unhidden(listing.entries), listing.readFails)))
  }

  /** Leaving hidden entries out and asking for everything where there are none is the same walk. */
  lemma {:induction false} HidingIsRemoving(cfg: Config, dir: Dir)
    ensures DirTrace(cfg.(includeHidden := false), dir) == DirTrace(WithoutHidden(cfg).(includeHidden := true), dir)
    decreases Room(dir.path), 1, 0
  {
    if cfg.open(dir.path).Some? {
      var listing := cfg.open(dir.path).value;
      HidingIsRemovingInScan(cfg, dir, listing.entries, listing.readFails);
    }
  }

  lemma {:induction false} HidingIsRemovingInScan(cfg: Config, dir: Dir, entries: seq<Entry>, readFails: bool)
    ensures ScanTrace(cfg.(includeHidden := false), dir, entries, readFails)
         == ScanTrace(WithoutHidden(cfg).(includeHidden := true), dir, Unhidden(entries), readFails)
    decreases Room(dir.path), 0, |entries|
  {
    if entries == [] {
      return;
    }
    hide ScanTrace, Examine;
    HidingIsRemovingInScan(cfg, dir, entries[1..], readFails);
    var hiding, removed := cfg.(includeHidden := false), WithoutHidden(cfg).(includeHidden := true);
    var x := Examine(hiding, dir, entries[0]);
    ScanUnfolds(hiding, dir, entries, readFails);
    if StartsWithDot(entries[0].name) {
      HiddenIsPassedOver(hiding, dir, entries[0]);
      assert Unhidden(entries) == Unhidden(entries[1..]);
    } else {
      SeenIsTheSame(cfg, dir, entries[0]);
      assert Unhidden(entries)[0] == entries[0] && Unhidden(entries)[1..] == Unhidden(entries[1..]);
      ScanUnfolds(removed, dir, Unhidden(entries), readFails);
      if x.descend.Some? {
        HidingIsRemoving(cfg, x.descend.value);
      }
    }
  }

  lemma HiddenIsPassedOver(cfg: Config, dir: Dir, entry: Entry)
    requires StartsWithDot(entry.name) && !cfg.includeHidden
    ensures Examine(cfg, dir, entry) == Examined([], None)
  {
  }

  lemma SeenIsTheSame(cfg: Config, dir: Dir, entry: Entry)
    requires !StartsWithDot(entry.name)
    ensures Examine(cfg.(includeHidden := false), dir, entry) == Examine(WithoutHidden(cfg).(includeHidden := true), dir, entry)
  {
    var hiding, removed := cfg.(includeHidden := false), WithoutHidden(cfg).(includeHidden := true);
    assert Resolve(hiding, entry) == Resolve(removed, entry);
    hide Resolve;
  }

  lemma ScanUnfolds(cfg: Config, dir: Dir, entries: seq<Entry>, readFails: bool)
    requires entries != []
    ensures var x, rest := Examine(cfg, dir, entries[0]), ScanTrace(cfg, dir, entries[1..], readFails);
            && ScanTrace(cfg, dir, entries, readFails) == x.events + DescentTrace(cfg, x.descend) + rest
            && (x == Examined([], None) ==> ScanTrace(cfg, dir, entries, readFails) == rest)
  {
    var x, rest := Examine(cfg, dir, entries[0]), ScanTrace(cfg, dir, entries[1..], readFails);
    assert ScanTrace(cfg, dir, entries, readFails) == x.events + DescentTrace(cfg, x.descend) + rest;
    hide Examine, ScanTrace;
    assert [] + [] + rest == rest;
  }

  // ---------- every event of every walk ----------

  /** In every run of the parallel walk an event is a missing reader, or it means something in the walk of the root. */
  lemma EveryRunMeansIt(cfg: Config, capacity: nat, workers: nat, schedule: seq<Choice>, ev: Event)
    requires cfg.root != [] && capacity >= 1
    requires ev in Run(cfg, capacity, Initial(cfg, workers), schedule).log && !ev.ReaderFailed?
    ensures Means(cfg, At(cfg.root, 0), ev)
  {
    var s := Run(cfg, capacity, Initial(cfg, workers), schedule);
    NeverMoreThanTheWalk(cfg, capacity, workers, schedule);
    WalkOnce.NoiseIsMissingReaders(cfg, capacity, workers, schedule);
    assert ev in multiset(s.log) && ev !in s.noise;
    assert ev in Reference(cfg);
    TraceIsMeaning(cfg, At(cfg.root, 0), ev);
  }

  /** The same of the sequential walk, whatever the stop check and the allocator answer. */
  lemma EveryWalkMeansIt(cfg: Config, world: World, ev: Event)
    requires cfg.root != [] && ev in Final(cfg, world).log && !ev.ReaderFailed?
    ensures Means(cfg, At(cfg.root, 0), ev)
  {
    NeverMoreThanTheReference(cfg, world);
    assert ev in multiset(Final(cfg, world).log);
    assert ev in multiset(Reference(cfg));
    TraceIsMeaning(cfg, At(cfg.root, 0), ev);
  }

  /** What comes behind the last slash of a path. */
  function LastComponent(path: bytes): bytes {
    if path == [] || path[|path| - 1] == SLASH then []
    else LastComponent(path[..|path| - 1]) + [path[|path| - 1]]
  }

  lemma {:induction false} LastOfJoined(base: bytes, name: bytes)
    requires PathJoin.IsComponent(name)
    ensures LastComponent(base + [SLASH] + name) == name
    decreases |name|
  {
    var path := base + [SLASH] + name;
    if name != [] {
      var init := name[..|name| - 1];
      assert path[..|path| - 1] == base + [SLASH] + init;
      LastOfJoined(base, init);
    }
  }

  predicate ShowsHidden(ev: Event) {
    match ev
    case StatFailed(path) => StartsWithDot(LastComponent(path))
    case Filtered(e) => StartsWithDot(LastComponent(e.path))
    case FileVisited(e) => StartsWithDot(LastComponent(e.path))
    case FolderVisited(e) => StartsWithDot(LastComponent(e.path))
    case _ => false
  }

  /** Unless they are asked for, no event is about an entry whose name starts with a dot. */
  lemma HiddenMeansNothing(cfg: Config, dir: Dir, ev: Event)
    requires SequentialInterruption.SlashFree(cfg) && !cfg.includeHidden && Means(cfg, dir, ev)
    ensures !ShowsHidden(ev)
  {
    var trail: seq<Dir> :| Trail(cfg, trail) && trail[0] == dir && Causes(cfg, trail[|trail| - 1], ev);
    var last := trail[|trail| - 1];
    if ev.StatFailed? || ev.Filtered? || ev.FileVisited? || ev.FolderVisited? {
      var entry :| entry in cfg.open(last.path).value.entries && EntryCauses(cfg, last, entry, ev);
      LastOfJoined(last.path, entry.name);
    }
  }

  /** So it is in every run of the parallel walk, and in every sequential walk. */
  lemma NoWalkShowsHidden(cfg: Config, capacity: nat, workers: nat, schedule: seq<Choice>, world: World, ev: Event)
    requires cfg.root != [] && capacity >= 1 && SequentialInterruption.SlashFree(cfg) && !cfg.includeHidden
    requires ev in Run(cfg, capacity, Initial(cfg, workers), schedule).log || ev in Final(cfg, world).log
    ensures !ShowsHidden(ev)
  {
    if !ev.ReaderFailed? {
      if ev in Final(cfg, world).log {
        EveryWalkMeansIt(cfg, world, ev);
      } else {
        EveryRunMeansIt(cfg, capacity, workers, schedule, ev);
      }
      HiddenMeansNothing(cfg, At(cfg.root, 0), ev);
    }
  }

  // ---------- one hidden file ----------

  const A: bytes := [65]

  function HiddenFile(): Entry {
    var stat := Some(Stat(Regular, 0, 0, 0, 0, 0));
    Entry([46, 66], 8, stat, stat)
  }

  /** The directory A holds the file ".B" only. */
  function OneHidden(includeHidden: bool): Config {
    Config(A, false, includeHidden,
           path => if path == A then Some(Listing([HiddenFile()], false)) else None, _ => true, _ => true, _ => true)
  }

  /** The file is visited and counted when hidden entries are asked for, and otherwise not. */
  lemma HiddenFileIsCountedOnDemand()
    ensures Tally(DirTrace(OneHidden(false), At(A, 0))) == Stats(0, 1, 0, 0)
    ensures Tally(DirTrace(OneHidden(true), At(A, 0))) == Stats(1, 1, 0, 0)
  {
    var dir := At(A, 0);
    var e := WalkEntry([65, 47, 46, 66], File, 1, Details(0, 0, 0, 0, 0, true));
    assert PathJoin.Joined(A, [46, 66]) == [65, 47, 46, 66];
    assert [HiddenFile()][1..] == [];
    assert Examine(OneHidden(false), dir, HiddenFile()) == Examined([], None);
    assert Examine(OneHidden(true), dir, HiddenFile()) == Examined([FileVisited(e)], None);
    assert DirTrace(OneHidden(false), dir) == [Opened(A)];
    assert DirTrace(OneHidden(true), dir) == [Opened(A), FileVisited(e)];
    TallyAppend([], Opened(A));
    TallyAppend([Opened(A)], FileVisited(e));
    assert [] + [Opened(A)] == [Opened(A)] && [Opened(A)] + [FileVisited(e)] == [Opened(A), FileVisited(e)];
  }
}
