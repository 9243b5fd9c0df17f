/**
 Each directory is processed once and each entry visited once: in a filesystem whose
 directory listings name distinct single components, the walk never meets a path twice,
 and it attempts exactly the directories that are reached by descending from the root.
 Also: how many directories there are to attempt.
 */
module WalkOnce {
  import opened Bytes
  import opened WalkReference
  import opened WalkStats
  import opened WalkProtocol
  import opened WalkTheorems
  import PathJoin

  /** Classes of events to count. */
  datatype Query =
    | Attempt(path: bytes)     // opening the directory at `path`, successfully or not
    | Visit(path: bytes)       // a visit callback for the entry at `path`
    | Attempts
    | OpenErrors
    | Errors
    | Filterings
    | FileVisits
    | Descents                 // directory visits after which the walk descends

  predicate Matches(cfg: Config, q: Query, ev: Event) {
    match q
    case Attempt(p) => ev == Opened(p) || ev == OpenFailed(p)
    case Visit(p) => (ev.FileVisited? || ev.FolderVisited?) && ev.entry.path == p
    case Attempts => ev.Opened? || ev.OpenFailed?
    case OpenErrors => ev.OpenFailed?
    case Errors => ev.OpenFailed? || ev.ReadFailed? || ev.PathTooLong? || ev.StatFailed? || ev.ReaderFailed?
    case Filterings => ev.Filtered?
    case FileVisits => ev.FileVisited?
    case Descents => ev.FolderVisited? && cfg.shouldDescend(ev.entry)
  }

  function Count(cfg: Config, q: Query, log: seq<Event>): nat {
    if log == [] then 0
    else Count(cfg, q, log[..|log| - 1]) + if Matches(cfg, q, log[|log| - 1]) then 1 else 0
  }

  lemma {:induction false} CountConcat(cfg: Config, q: Query, a: seq<Event>, b: seq<Event>)
    ensures Count(cfg, q, a + b) == Count(cfg, q, a) + Count(cfg, q, b)
    decreases |b|
  {
    if b == [] {
      assert a + b == a;
    } else {
      var init := b[..|b| - 1];
      assert (a + b)[..|a + b| - 1] == a + init;
      CountConcat(cfg, q, a, init);
    }
  }

  lemma CountOne(cfg: Config, q: Query, ev: Event)
    ensures Count(cfg, q, [ev]) == if Matches(cfg, q, ev) then 1 else 0
  {
    assert [ev][..0] == [];
  }

  /** Counting sees only which matching events happened, and how often. */
  lemma {:induction false} CountIsMonotone(cfg: Config, q: Query, a: seq<Event>, b: seq<Event>)
    requires forall ev :: Matches(cfg, q, ev) ==> multiset(a)[ev] <= multiset(b)[ev]
    ensures Count(cfg, q, a) <= Count(cfg, q, b)
    decreases |a|
  {
    if a != [] {
      var init, x := a[..|a| - 1], a[|a| - 1];
      assert a == init + [x];
      assert multiset(init) == multiset(a) - multiset{x};
      if Matches(cfg, q, x) {
        assert multiset(b)[x] >= multiset(a)[x] > 0;
        var k :| 0 <= k < |b| && b[k] == x;
        WithoutOne(b, k);
        CountIsMonotone(cfg, q, init, b[..k] + b[k + 1..]);
        CountWithoutOne(cfg, q, b, k);
      } else {
        CountIsMonotone(cfg, q, init, b);
      }
    }
  }

  lemma WithoutOne(log: seq<Event>, k: nat)
    requires k < |log|
    ensures multiset(log[..k] + log[k + 1..]) == multiset(log) - multiset{log[k]}
  {
    assert log == log[..k] + [log[k]] + log[k + 1..];
  }

  lemma CountWithoutOne(cfg: Config, q: Query, log: seq<Event>, k: nat)
    requires k < |log|
    ensures Count(cfg, q, log)
         == Count(cfg, q, log[..k] + log[k + 1..]) + if Matches(cfg, q, log[k]) then 1 else 0
  {
    var before, x, after := log[..k], log[k], log[k + 1..];
    assert log == before + [x] + after;
    CountConcat(cfg, q, before, after);
    CountConcat(cfg, q, before + [x], after);
    CountConcat(cfg, q, before, [x]);
    CountOne(cfg, q, x);
  }

  // ---------- paths below a directory ----------

  /** `path` is `base` or lies below it. */
  predicate Under(base: bytes, path: bytes) {
    base == path || StrictlyUnder(base, path)
  }

  predicate StrictlyUnder(base: bytes, path: bytes) {
    base + [SLASH] <= path
  }

  lemma UnderIsTransitive(base: bytes, name: bytes, path: bytes)
    requires base != [] && Under(PathJoin.Joined(base, name), path)
    ensures StrictlyUnder(base, path)
  {
    var joined := PathJoin.Joined(base, name);
    assert base + [SLASH] <= joined;
  }

  /** Two different components of one directory have nothing below them in common. */
  lemma SiblingsAreDisjoint(base: bytes, name1: bytes, name2: bytes, path: bytes)
    requires base != [] && PathJoin.IsComponent(name1) && PathJoin.IsComponent(name2)
    requires Under(PathJoin.Joined(base, name1), path) && Under(PathJoin.Joined(base, name2), path)
    ensures name1 == name2
  {
    ComponentEndsFirst(base, name1, name2, path);
    ComponentEndsFirst(base, name2, name1, path);
    var j1, j2 := PathJoin.Joined(base, name1), PathJoin.Joined(base, name2);
    assert j1 == path[..|j1|] == path[..|j2|] == j2;
    assert name1 == j1[|base| + 1..] && name2 == j2[|base| + 1..];
  }

  lemma ComponentEndsFirst(base: bytes, name1: bytes, name2: bytes, path: bytes)
    requires base != [] && PathJoin.IsComponent(name1) && PathJoin.IsComponent(name2)
    requires Under(PathJoin.Joined(base, name1), path) && Under(PathJoin.Joined(base, name2), path)
    ensures |name1| >= |name2|
  {
    var j1, j2 := PathJoin.Joined(base, name1), PathJoin.Joined(base, name2);
    assert |path| > |j1| ==> path[|j1|] == (j1 + [SLASH])[|j1|] == SLASH;
    assert forall i :: |base| < i < |j2| ==> path[i] == j2[i] && j2[i] != SLASH by {
      PathJoin.LastSlash(base, name2);
    }
  }

  // ---------- no path twice ----------

  /** What the kernel guarantees of a directory: distinct names without separators. */
  ghost predicate WellNamed(entries: seq<Entry>) {
    && (forall e :: e in entries ==> PathJoin.IsComponent(e.name))
    && (forall i, j :: 0 <= i < j < |entries| ==> entries[i].name != entries[j].name)
  }

  ghost predicate WellNamedFilesystem(cfg: Config) {
    forall path :: cfg.open(path).Some? ==> WellNamed(cfg.open(path).value.entries)
  }

  predicate ByPath(q: Query) {
    q.Attempt? || q.Visit?
  }

  lemma CountScan(cfg: Config, q: Query, dir: Dir, entries: seq<Entry>, readFails: bool)
    requires entries != []
    ensures var x := Examine(cfg, dir, entries[0]);
            Count(cfg, q, ScanTrace(cfg, dir, entries, readFails))
            == Count(cfg, q, x.events) + Count(cfg, q, DescentTrace(cfg, x.descend))
               + Count(cfg, q, ScanTrace(cfg, dir, entries[1..], readFails))
  {
    var x := Examine(cfg, dir, entries[0]);
    CountConcat(cfg, q, x.events, DescentTrace(cfg, x.descend));
    CountConcat(cfg, q, x.events + DescentTrace(cfg, x.descend), ScanTrace(cfg, dir, entries[1..], readFails));
  }

  lemma {:induction false} DirMeetsOnce(cfg: Config, q: Query, dir: Dir)
    requires WellNamedFilesystem(cfg) && ByPath(q)
    ensures Count(cfg, q, DirTrace(cfg, dir)) <= 1
    ensures Count(cfg, q, DirTrace(cfg, dir)) > 0 ==> if q.Attempt? then Under(dir.path, q.path) else StrictlyUnder(dir.path, q.path)
    decreases Room(dir.path), 1, 0
  {
    match cfg.open(dir.path)
    case None =>
      CountOne(cfg, q, OpenFailed(dir.path));
    case Some(listing) =>
      CountOne(cfg, q, Opened(dir.path));
      CountConcat(cfg, q, [Opened(dir.path)], ScanTrace(cfg, dir, listing.entries, listing.readFails));
      ScanMeetsOnce(cfg, q, dir, listing.entries, listing.readFails);
      if Count(cfg, q, ScanTrace(cfg, dir, listing.entries, listing.readFails)) > 0 {
        var e :| e in listing.entries && Under(PathJoin.Joined(dir.path, e.name), q.path);
        UnderIsTransitive(dir.path, e.name, q.path);
      }
  }

  lemma {:induction false} ScanMeetsOnce(cfg: Config, q: Query, dir: Dir, entries: seq<Entry>, readFails: bool)
    requires WellNamedFilesystem(cfg) && ByPath(q) && WellNamed(entries)
    ensures Count(cfg, q, ScanTrace(cfg, dir, entries, readFails)) <= 1
    ensures Count(cfg, q, ScanTrace(cfg, dir, entries, readFails)) > 0 ==>
              exists e :: e in entries && Under(PathJoin.Joined(dir.path, e.name), q.path)
    decreases Room(dir.path), 0, |entries|
  {
    if entries == [] {
      CountOne(cfg, q, ReadFailed(dir.path));
    } else {
      var rest := entries[1..];
      assert entries[0] in entries && forall e :: e in rest ==> e in entries;
      CountScan(cfg, q, dir, entries, readFails);
      EntryMeetsOnce(cfg, q, dir, entries[0]);
      ScanMeetsOnce(cfg, q, dir, rest, readFails);
      if Count(cfg, q, ScanTrace(cfg, dir, rest, readFails)) > 0 {
        var e :| e in rest && Under(PathJoin.Joined(dir.path, e.name), q.path);
        assert e in entries && e.name != entries[0].name;
        if Under(PathJoin.Joined(dir.path, entries[0].name), q.path) {
          SiblingsAreDisjoint(dir.path, entries[0].name, e.name, q.path);
        }
      }
    }
  }

  lemma {:induction false} EntryMeetsOnce(cfg: Config, q: Query, dir: Dir, entry: Entry)
    requires WellNamedFilesystem(cfg) && ByPath(q)
    ensures var x := Examine(cfg, dir, entry);
            var n := Count(cfg, q, x.events) + Count(cfg, q, DescentTrace(cfg, x.descend));
            n <= 1 && (n > 0 ==> Under(PathJoin.Joined(dir.path, entry.name), q.path))
    decreases Room(dir.path), 0, 0
  {
    var x := Examine(cfg, dir, entry);
    var path := PathJoin.Joined(dir.path, entry.name);
    if x.events != [] {
      assert x.events == [x.events[0]];
      CountOne(cfg, q, x.events[0]);
    }
    if x.descend.Some? {
      DirMeetsOnce(cfg, q, x.descend.value);
    }
  }

  // ---------- which directories ----------

  /** `sub` is a directory the walk descends into from `dir`. */
  ghost predicate DescendsTo(cfg: Config, dir: Dir, sub: Dir) {
    cfg.open(dir.path).Some?
    && exists e :: e in cfg.open(dir.path).value.entries && Examine(cfg, dir, e).descend == Some(sub)
  }

  /** A chain of descents, each directory reached from the one before it. */
  ghost predicate Chain(cfg: Config, chain: seq<Dir>) {
    chain != [] && forall i :: 0 < i < |chain| ==> DescendsTo(cfg, chain[i - 1], chain[i])
  }

  ghost predicate Reachable(cfg: Config, from: Dir, path: bytes) {
    exists chain: seq<Dir> :: Chain(cfg, chain) && chain[0] == from && chain[|chain| - 1].path == path
  }

  lemma CountDir(cfg: Config, q: Query, dir: Dir)
    ensures Count(cfg, q, DirTrace(cfg, dir)) ==
              match cfg.open(dir.path)
              case None => if Matches(cfg, q, OpenFailed(dir.path)) then 1 else 0
              case Some(listing) =>
                (if Matches(cfg, q, Opened(dir.path)) then 1 else 0)
                + Count(cfg, q, ScanTrace(cfg, dir, listing.entries, listing.readFails))
  {
    match cfg.open(dir.path)
    case None => CountOne(cfg, q, OpenFailed(dir.path));
    case Some(listing) =>
      CountOne(cfg, q, Opened(dir.path));
      CountConcat(cfg, q, [Opened(dir.path)], ScanTrace(cfg, dir, listing.entries, listing.readFails));
  }

  /** Descending contributes the whole trace of the subdirectory. */
  lemma {:induction false} ScanContains(cfg: Config, q: Query, dir: Dir, entries: seq<Entry>, readFails: bool, e: Entry)
    requires e in entries && Examine(cfg, dir, e).descend.Some?
    ensures Count(cfg, q, ScanTrace(cfg, dir, entries, readFails))
         >= Count(cfg, q, DirTrace(cfg, Examine(cfg, dir, e).descend.value))
    decreases |entries|
  {
    CountScan(cfg, q, dir, entries, readFails);
    if entries[0] != e {
      ScanContains(cfg, q, dir, entries[1..], readFails, e);
    }
  }

  lemma ChainTail(cfg: Config, chain: seq<Dir>)
    requires Chain(cfg, chain) && |chain| > 1
    ensures Chain(cfg, chain[1..])
  {
    var tail := chain[1..];
    forall i | 0 < i < |tail| ensures DescendsTo(cfg, tail[i - 1], tail[i]) {
      assert DescendsTo(cfg, chain[i + 1 - 1], chain[i + 1]);
    }
  }

  lemma {:induction false} ReachableIsAttempted(cfg: Config, chain: seq<Dir>)
    requires Chain(cfg, chain)
    ensures Count(cfg, Attempt(chain[|chain| - 1].path), DirTrace(cfg, chain[0])) >= 1
    decreases |chain|
  {
    var q := Attempt(chain[|chain| - 1].path);
    CountDir(cfg, q, chain[0]);
    if |chain| > 1 {
      assert DescendsTo(cfg, chain[0], chain[1]);
      var listing := cfg.open(chain[0].path).value;
      var e :| e in listing.entries && Examine(cfg, chain[0], e).descend == Some(chain[1]);
      ScanContains(cfg, q, chain[0], listing.entries, listing.readFails, e);
      ChainTail(cfg, chain);
      ReachableIsAttempted(cfg, chain[1..]);
    }
  }

  lemma {:induction false} AttemptedIsReachable(cfg: Config, dir: Dir, path: bytes) returns (chain: seq<Dir>)
    requires Count(cfg, Attempt(path), DirTrace(cfg, dir)) >= 1
    ensures Chain(cfg, chain) && chain[0] == dir && chain[|chain| - 1].path == path
    decreases Room(dir.path), 1, 0
  {
    CountDir(cfg, Attempt(path), dir);
    if path == dir.path {
      chain := [dir];
    } else {
      var listing := cfg.open(dir.path).value;
      var e, below := FindDescent(cfg, dir, listing.entries, listing.readFails, path);
      chain := [dir] + below;
      assert DescendsTo(cfg, dir, below[0]);
      forall i | 0 < i < |chain| ensures DescendsTo(cfg, chain[i - 1], chain[i]) {
        if i > 1 {
          assert DescendsTo(cfg, below[i - 2], below[i - 1]);
        }
      }
    }
  }

  lemma {:induction false} FindDescent(cfg: Config, dir: Dir, entries: seq<Entry>, readFails: bool, path: bytes)
    returns (e: Entry, below: seq<Dir>)
    requires Count(cfg, Attempt(path), ScanTrace(cfg, dir, entries, readFails)) >= 1
    ensures e in entries && Chain(cfg, below) && Examine(cfg, dir, e).descend == Some(below[0])
    ensures below[|below| - 1].path == path
    decreases Room(dir.path), 0, |entries|
  {
    if entries == [] {
      CountOne(cfg, Attempt(path), ReadFailed(dir.path));
      assert false;
    }
    var x := Examine(cfg, dir, entries[0]);
    CountScan(cfg, Attempt(path), dir, entries, readFails);
    if Count(cfg, Attempt(path), DescentTrace(cfg, x.descend)) >= 1 {
      e := entries[0];
      below := AttemptedIsReachable(cfg, x.descend.value, path);
    } else {
      ExaminedIsNoAttempt(cfg, dir, entries[0], path);
      e, below := FindDescent(cfg, dir, entries[1..], readFails, path);
    }
  }

  lemma ExaminedIsNoAttempt(cfg: Config, dir: Dir, entry: Entry, path: bytes)
    ensures Count(cfg, Attempt(path), Examine(cfg, dir, entry).events) == 0
  {
    var x := Examine(cfg, dir, entry);
    if x.events != [] {
      assert x.events == [x.events[0]];
      CountOne(cfg, Attempt(path), x.events[0]);
    }
  }

  /** The recursive walk attempts each reachable directory exactly once and no other. */
  lemma AttemptsExactlyTheReachable(cfg: Config, dir: Dir, path: bytes)
    requires WellNamedFilesystem(cfg)
    ensures Count(cfg, Attempt(path), DirTrace(cfg, dir)) == if Reachable(cfg, dir, path) then 1 else 0
  {
    DirMeetsOnce(cfg, Attempt(path), dir);
    if Reachable(cfg, dir, path) {
      var chain: seq<Dir> :| Chain(cfg, chain) && chain[0] == dir && chain[|chain| - 1].path == path;
      ReachableIsAttempted(cfg, chain);
    } else if Count(cfg, Attempt(path), DirTrace(cfg, dir)) >= 1 {
      var chain := AttemptedIsReachable(cfg, dir, path);
      assert false;
    }
  }

  // ---------- how many directories ----------

  /** Every directory attempted is the first one or the target of a descent. */
  lemma {:induction false} AttemptsAreDescents(cfg: Config, dir: Dir)
    ensures Count(cfg, Attempts, DirTrace(cfg, dir)) == 1 + Count(cfg, Descents, DirTrace(cfg, dir))
    decreases Room(dir.path), 1, 0
  {
    CountDir(cfg, Attempts, dir);
    CountDir(cfg, Descents, dir);
    match cfg.open(dir.path)
    case None =>
    case Some(listing) => ScanAttemptsAreDescents(cfg, dir, listing.entries, listing.readFails);
  }

  lemma {:induction false} ScanAttemptsAreDescents(cfg: Config, dir: Dir, entries: seq<Entry>, readFails: bool)
    ensures var scan := ScanTrace(cfg, dir, entries, readFails);
            Count(cfg, Attempts, scan) == Count(cfg, Descents, scan)
    decreases Room(dir.path), 0, |entries|
  {
    if entries == [] {
      CountOne(cfg, Attempts, ReadFailed(dir.path));
      CountOne(cfg, Descents, ReadFailed(dir.path));
    } else {
      var x := Examine(cfg, dir, entries[0]);
      CountScan(cfg, Attempts, dir, entries, readFails);
      CountScan(cfg, Descents, dir, entries, readFails);
      ScanAttemptsAreDescents(cfg, dir, entries[1..], readFails);
      ExaminedDescends(cfg, dir, entries[0]);
      if x.descend.Some? {
        AttemptsAreDescents(cfg, x.descend.value);
      }
    }
  }

  lemma ExaminedDescends(cfg: Config, dir: Dir, entry: Entry)
    ensures var x := Examine(cfg, dir, entry);
            && Count(cfg, Attempts, x.events) == 0
            && Count(cfg, Descents, x.events) == if x.descend.Some? then 1 else 0
  {
    var x := Examine(cfg, dir, entry);
    if x.events != [] {
      assert x.events == [x.events[0]];
      CountOne(cfg, Attempts, x.events[0]);
      CountOne(cfg, Descents, x.events[0]);
    }
  }

  /** Each of the four counters counts one class of events. */
  lemma {:induction false} TallyCounts(cfg: Config, log: seq<Event>)
    ensures Tally(log).directoriesVisited + Count(cfg, OpenErrors, log) == Count(cfg, Attempts, log)
    ensures Tally(log).filesVisited == Count(cfg, FileVisits, log)
    ensures Tally(log).filesSkipped == Count(cfg, Filterings, log)
    ensures Tally(log).errors == Count(cfg, Errors, log)
  {
    if log != [] {
      TallyCounts(cfg, log[..|log| - 1]);
    }
  }

  // ---------- every run ----------

  lemma {:induction false} NoiseIsMissingReaders(cfg: Config, capacity: nat, workers: nat, schedule: seq<Choice>)
    requires cfg.root != []
    ensures forall ev :: ev in Run(cfg, capacity, Initial(cfg, workers), schedule).noise ==> ev.ReaderFailed?
  {
    if schedule != [] {
      NoiseIsMissingReaders(cfg, capacity, workers, schedule[..|schedule| - 1]);
    }
  }

  /** No worker ever opens a directory twice or visits an entry twice, in any run, failed or not. */
  lemma RunMeetsOnce(cfg: Config, capacity: nat, workers: nat, schedule: seq<Choice>, q: Query)
    requires cfg.root != [] && capacity >= 1 && WellNamedFilesystem(cfg) && ByPath(q)
    ensures Count(cfg, q, Run(cfg, capacity, Initial(cfg, workers), schedule).log) <= 1
  {
    var s := Run(cfg, capacity, Initial(cfg, workers), schedule);
    NeverMoreThanTheWalk(cfg, capacity, workers, schedule);
    NoiseIsMissingReaders(cfg, capacity, workers, schedule);
    forall ev | Matches(cfg, q, ev) ensures multiset(s.log)[ev] <= multiset(Reference(cfg))[ev] {
      assert ev !in s.noise;
    }
    CountIsMonotone(cfg, q, s.log, Reference(cfg));
    DirMeetsOnce(cfg, q, At(cfg.root, 0));
  }

  /** A complete run has attempted every reachable directory exactly once, and no other directory. */
  lemma CompleteRunAttemptsEachOnce(cfg: Config, capacity: nat, workers: nat, schedule: seq<Choice>, path: bytes)
    requires cfg.root != [] && capacity >= 1 && workers >= 1 && WellNamedFilesystem(cfg)
    requires var s := Run(cfg, capacity, Initial(cfg, workers), schedule);
             AllExited(s) && Undisturbed(s) && !s.visitFailed
    ensures Count(cfg, Attempt(path), Run(cfg, capacity, Initial(cfg, workers), schedule).log)
         == if Reachable(cfg, At(cfg.root, 0), path) then 1 else 0
  {
    var s := Run(cfg, capacity, Initial(cfg, workers), schedule);
    CompleteRunIsTheWalk(cfg, capacity, workers, schedule);
    CountIsMonotone(cfg, Attempt(path), s.log, Reference(cfg));
    CountIsMonotone(cfg, Attempt(path), Reference(cfg), s.log);
    AttemptsExactlyTheReachable(cfg, At(cfg.root, 0), path);
  }

  /** The directory counter plus the open errors is one more than the number of descents. */
  lemma CompleteRunAccounting(cfg: Config, capacity: nat, workers: nat, schedule: seq<Choice>)
    requires cfg.root != [] && capacity >= 1 && workers >= 1
    requires var s := Run(cfg, capacity, Initial(cfg, workers), schedule);
             AllExited(s) && Undisturbed(s) && !s.visitFailed
    ensures var s := Run(cfg, capacity, Initial(cfg, workers), schedule);
            s.stats.directoriesVisited + Count(cfg, OpenErrors, s.log) == 1 + Count(cfg, Descents, s.log)
  {
    var s := Run(cfg, capacity, Initial(cfg, workers), schedule);
    CompleteRunIsTheWalk(cfg, capacity, workers, schedule);
    forall q ensures Count(cfg, q, s.log) == Count(cfg, q, Reference(cfg)) {
      CountIsMonotone(cfg, q, s.log, Reference(cfg));
      CountIsMonotone(cfg, q, Reference(cfg), s.log);
    }
    AttemptsAreDescents(cfg, At(cfg.root, 0));
    TallyCounts(cfg, Reference(cfg));
  }
}
