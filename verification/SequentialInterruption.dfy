/**
 When an interrupted sequential walk has done a prefix of the reference. A stop answer leaves
 a directory, or the rest of one, and every enclosing directory asks again; if the
 request has been withdrawn by then, the walk goes on behind the gap.
 */
module SequentialInterruption {
  import opened Bytes
  import opened WalkReference
  import opened WalkTheorems
  import opened SequentialWalk
  import opened SequentialResult
  import PathJoin

  /** An event happened after a stop answer had already cut part of the reference off. */
  predicate Resumed(p: Progress) {
    p.gap.Some? && |p.log| > p.gap.value.at
  }

  // ---------- where the gap is ----------

  /** With `part` to be done from `p` on, the log of `p'` follows the reference up to the gap, if there is one. */
  ghost predicate FollowsToGap(p: Progress, p': Progress, part: seq<Event>) {
    var whole := p.log + part;
    match p'.gap
    case None => p'.log <= whole && (!p'.visitFailed ==> p'.log == whole)
    case Some(gap) =>
      && |p.log| <= gap.at <= |p'.log| && gap.at < |whole|
      && whole[gap.at] == gap.missed && p'.log[..gap.at] == whole[..gap.at]
  }

  ghost predicate Tracks(p: Progress, p': Progress, part: seq<Event>) {
    && p.log <= p'.log
    && (p.gap.Some? ==> p'.gap == p.gap)
    && (p.readerMissing ==> p'.readerMissing)
    && (p.visitFailed ==> p'.visitFailed && p'.log == p.log && p'.gap == p.gap)
    && (p.gap.None? && !p'.readerMissing ==> FollowsToGap(p, p', part))
  }

  lemma TracksThen(p: Progress, q: Progress, r: Progress, first: seq<Event>, second: seq<Event>)
    requires Tracks(p, q, first) && Tracks(q, r, second)
    ensures Tracks(p, r, first + second)
  {
    assert p.log + (first + second) == (p.log + first) + second;
    if p.gap.None? && !r.readerMissing {
      if q.gap.Some? {
        var at := q.gap.value.at;
        assert r.log[..at] == q.log[..at];
        assert ((p.log + first) + second)[..at] == (p.log + first)[..at];
      } else if r.gap.Some? {
        assert q.log == p.log + first;
      }
    }
  }

  lemma {:induction false} RecursedTracks(cfg: Config, world: World, p: Progress, dir: Dir)
    ensures Tracks(p, Recursed(cfg, world, p, dir), DirTrace(cfg, dir))
    decreases Room(dir.path), 2, 0
  {
    if !p.visitFailed && !world.stops(p.polls) {
      var p1 := Polled(world, p);
      match cfg.open(dir.path)
      case None =>
      case Some(listing) =>
        var p2 := Noted(cfg, p1, Opened(dir.path));
        var p3 := Allocated(world, p2);
        if !world.readerFails(p2.allocations) {
          ScannedTracks(cfg, world, p3, dir, listing.entries, listing.readFails);
          TracksThen(p, p3, Scanned(cfg, world, p3, dir, listing.entries, listing.readFails),
                     [Opened(dir.path)], ScanTrace(cfg, dir, listing.entries, listing.readFails));
        }
    }
  }

  lemma {:induction false} ScannedTracks(cfg: Config, world: World, p: Progress, dir: Dir, entries: seq<Entry>, readFails: bool)
    ensures Tracks(p, Scanned(cfg, world, p, dir, entries, readFails), ScanTrace(cfg, dir, entries, readFails))
    decreases Room(dir.path), 1, |entries|
  {
    if !p.visitFailed && !world.stops(p.polls) && entries != [] {
      var p1 := Polled(world, p);
      var p2 := Entered(cfg, world, p1, dir, entries[0]);
      var end := Scanned(cfg, world, p2, dir, entries[1..], readFails);
      EnteredTracks(cfg, world, p1, dir, entries[0]);
      ScannedTracks(cfg, world, p2, dir, entries[1..], readFails);
      TracksThen(p1, p2, end, EntryTrace(cfg, dir, entries[0]), ScanTrace(cfg, dir, entries[1..], readFails));
      assert ScanTrace(cfg, dir, entries, readFails)
          == EntryTrace(cfg, dir, entries[0]) + ScanTrace(cfg, dir, entries[1..], readFails);
    }
  }

  lemma {:induction false} EnteredTracks(cfg: Config, world: World, p: Progress, dir: Dir, entry: Entry)
    requires !p.visitFailed
    ensures Tracks(p, Entered(cfg, world, p, dir, entry), EntryTrace(cfg, dir, entry))
    decreases Room(dir.path), 0, 0
  {
    var x := Examine(cfg, dir, entry);
    var p1 := if x.events == [] then p else Noted(cfg, p, x.events[0]);
    assert x.events == [] || x.events == [x.events[0]];
    assert Tracks(p, p1, x.events);
    match x.descend
    case None => assert EntryTrace(cfg, dir, entry) == x.events;
    case Some(sub) =>
      if p1.visitFailed {
        TracksThen(p, p1, p1, x.events, DirTrace(cfg, sub));
      } else {
        RecursedTracks(cfg, world, p1, sub);
        TracksThen(p, p1, Recursed(cfg, world, p1, sub), x.events, DirTrace(cfg, sub));
      }
  }

  // ---------- what comes behind a gap ----------

  /** Entry names are single path components. */
  ghost predicate SlashFree(cfg: Config) {
    forall path, e :: cfg.open(path).Some? && e in cfg.open(path).value.entries ==> PathJoin.IsComponent(e.name)
  }

  ghost predicate SlashFrom(path: bytes, from: nat) {
    exists i :: from <= i < |path| && path[i] == SLASH
  }

  /** An event that the walk of a directory with a path this long, at this depth, can cause. */
  ghost predicate CausedAt(length: nat, depth: nat, ev: Event) {
    match ev
    case ReadFailed(path) => |path| >= length
    case PathTooLong(path) => |path| >= length
    case StatFailed(path) => SlashFrom(path, length)
    case Filtered(e) => e.depth > depth
    case FileVisited(e) => e.depth > depth
    case FolderVisited(e) => e.depth > depth
    case _ => true
  }

  ghost predicate CausedBy(dir: Dir, ev: Event) {
    CausedAt(|dir.path|, dir.depth, ev)
  }

  /** Caused by a directory below this one. */
  ghost predicate CausedBelow(dir: Dir, ev: Event) {
    CausedAt(|dir.path| + 1, dir.depth + 1, ev)
  }

  lemma BelowIsBy(dir: Dir, sub: Dir, ev: Event)
    requires |sub.path| > |dir.path| && sub.depth == dir.depth + 1
    ensures CausedBy(sub, ev) ==> CausedBelow(dir, ev)
    ensures CausedBelow(dir, ev) ==> CausedBy(dir, ev)
  {
  }

  /** What a directory reports of its own entries is caused by it and not below it. */
  lemma OwnEvents(cfg: Config, dir: Dir, entry: Entry)
    ensures var x := Examine(cfg, dir, entry);
            x.events != [] ==>
              && CausedBy(dir, x.events[0])
              && (PathJoin.IsComponent(entry.name) ==> !CausedBelow(dir, x.events[0]))
  {
    var path := PathJoin.Joined(dir.path, entry.name);
    assert path[|dir.path|] == SLASH;
    if PathJoin.IsComponent(entry.name) {
      PathJoin.LastSlash(dir.path, entry.name);
    }
  }

  lemma {:induction false} ScanStartsByItself(cfg: Config, dir: Dir, entries: seq<Entry>, readFails: bool)
    ensures var trace := ScanTrace(cfg, dir, entries, readFails); trace != [] ==> CausedBy(dir, trace[0])
    decreases |entries|
  {
    if entries != [] {
      var x := Examine(cfg, dir, entries[0]);
      assert x.events == [] ==> x.descend.None?;
      OwnEvents(cfg, dir, entries[0]);
      ScanStartsByItself(cfg, dir, entries[1..], readFails);
      hide Examine, CausedBy, DirTrace;
      if x.events != [] {
        assert ScanTrace(cfg, dir, entries, readFails)[0] == x.events[0];
      } else {
        assert ScanTrace(cfg, dir, entries, readFails) == ScanTrace(cfg, dir, entries[1..], readFails);
      }
    }
  }

  /** What follows the gap in the log is not what the reference has there. */
  ghost predicate Differs(p: Progress) {
    && (p.gap.Some? ==> p.gap.value.at <= |p.log|)
    && (Resumed(p) ==> p.log[p.gap.value.at] != p.gap.value.missed)
  }

  /** The log ends at the gap, which lies below `dir`: the next event of `dir` itself is another one. */
  ghost predicate Pending(p: Progress, dir: Dir) {
    p.gap.Some? && !Resumed(p) ==> CausedBelow(dir, p.gap.value.missed)
  }

  /** A new gap is where some event caused by `dir` should be. */
  ghost predicate GapIn(p: Progress, p': Progress, dir: Dir) {
    && (p.gap.Some? ==> p'.gap == p.gap)
    && (p.gap.None? && p'.gap.Some? ==> CausedBy(dir, p'.gap.value.missed))
  }

  lemma NotedDiffers(cfg: Config, p: Progress, dir: Dir, ev: Event)
    requires Differs(p) && Pending(p, dir) && !CausedBelow(dir, ev)
    ensures Differs(Noted(cfg, p, ev)) && Pending(Noted(cfg, p, ev), dir)
  {
  }

  lemma {:induction false} RecursedDiffers(cfg: Config, world: World, p: Progress, dir: Dir)
    requires SlashFree(cfg) && Differs(p) && (p.gap.Some? ==> Resumed(p))
    ensures var p' := Recursed(cfg, world, p, dir);
            Differs(p') && GapIn(p, p', dir) && p.log <= p'.log
    decreases Room(dir.path), 2, 0
  {
    if !p.visitFailed && !world.stops(p.polls) {
      var p1 := Polled(world, p);
      match cfg.open(dir.path)
      case None =>
      case Some(listing) =>
        var p3 := Allocated(world, Noted(cfg, p1, Opened(dir.path)));
        if !world.readerFails(p1.allocations) {
          assert forall e :: e in listing.entries ==> PathJoin.IsComponent(e.name);
          ScannedDiffers(cfg, world, p3, dir, listing.entries, listing.readFails);
        }
    }
  }

  lemma {:induction false} ScannedDiffers(cfg: Config, world: World, p: Progress, dir: Dir, entries: seq<Entry>, readFails: bool)
    requires SlashFree(cfg) && Differs(p) && Pending(p, dir)
    requires forall e :: e in entries ==> PathJoin.IsComponent(e.name)
    ensures var p' := Scanned(cfg, world, p, dir, entries, readFails);
            Differs(p') && GapIn(p, p', dir) && p.log <= p'.log
    decreases Room(dir.path), 1, |entries|
  {
    ScanStartsByItself(cfg, dir, entries, readFails);
    if !p.visitFailed && !world.stops(p.polls) {
      var p1 := Polled(world, p);
      if entries != [] {
        assert entries[0] in entries && forall e :: e in entries[1..] ==> e in entries;
        EnteredDiffers(cfg, world, p1, dir, entries[0]);
        ScannedDiffers(cfg, world, Entered(cfg, world, p1, dir, entries[0]), dir, entries[1..], readFails);
      } else if readFails {
        NotedDiffers(cfg, p1, dir, ReadFailed(dir.path));
      }
    }
  }

  lemma {:induction false} EnteredDiffers(cfg: Config, world: World, p: Progress, dir: Dir, entry: Entry)
    requires SlashFree(cfg) && Differs(p) && Pending(p, dir) && PathJoin.IsComponent(entry.name)
    ensures var p' := Entered(cfg, world, p, dir, entry);
            Differs(p') && Pending(p', dir) && GapIn(p, p', dir) && p.log <= p'.log
    decreases Room(dir.path), 0, 0
  {
    var x := Examine(cfg, dir, entry);
    OwnEvents(cfg, dir, entry);
    if x.events != [] {
      NotedDiffers(cfg, p, dir, x.events[0]);
    }
    if x.descend.Some? {
      var p1 := Noted(cfg, p, x.events[0]);
      var sub := x.descend.value;
      if !p1.visitFailed {
        RecursedDiffers(cfg, world, p1, sub);
        var p' := Recursed(cfg, world, p1, sub);
        if p'.gap.Some? {
          BelowIsBy(dir, sub, p'.gap.value.missed);
        }
      }
    }
  }

  // ---------- missing readers ----------

  lemma {:induction false} ReferenceMissesNoReader(cfg: Config, dir: Dir)
    ensures forall ev :: ev in DirTrace(cfg, dir) ==> !ev.ReaderFailed?
    decreases Room(dir.path), 1, 0
  {
    if cfg.open(dir.path).Some? {
      var listing := cfg.open(dir.path).value;
      ScanMissesNoReader(cfg, dir, listing.entries, listing.readFails);
    }
  }

  lemma {:induction false} ScanMissesNoReader(cfg: Config, dir: Dir, entries: seq<Entry>, readFails: bool)
    ensures forall ev :: ev in ScanTrace(cfg, dir, entries, readFails) ==> !ev.ReaderFailed?
    decreases Room(dir.path), 0, |entries|
  {
    if entries != [] {
      var x := Examine(cfg, dir, entries[0]);
      if x.descend.Some? {
        ReferenceMissesNoReader(cfg, x.descend.value);
      }
      ScanMissesNoReader(cfg, dir, entries[1..], readFails);
    }
  }

  /** A missing reader has been reported. */
  ghost predicate Admitted(p: Progress) {
    p.readerMissing ==> exists ev :: ev in p.log && ev.ReaderFailed?
  }

  lemma {:induction false} RecursedAdmits(cfg: Config, world: World, p: Progress, dir: Dir)
    requires Admitted(p)
    ensures Admitted(Recursed(cfg, world, p, dir))
    decreases Room(dir.path), 2, 0
  {
    if !p.visitFailed && !world.stops(p.polls) && cfg.open(dir.path).Some? {
      var listing := cfg.open(dir.path).value;
      var p2 := Noted(cfg, Polled(world, p), Opened(dir.path));
      var p3 := Allocated(world, p2);
      AdmitsMore(p, p2);
      if world.readerFails(p2.allocations) {
        assert ReaderFailed(dir.path) in Noted(cfg, p3, ReaderFailed(dir.path)).log;
      } else {
        ScannedAdmits(cfg, world, p3, dir, listing.entries, listing.readFails);
      }
    } else {
      RecursedTracks(cfg, world, p, dir);
      AdmitsMore(p, Recursed(cfg, world, p, dir));
    }
  }

  lemma AdmitsMore(p: Progress, p': Progress)
    requires Admitted(p) && p.log <= p'.log && p'.readerMissing == p.readerMissing
    ensures Admitted(p')
  {
    if p.readerMissing {
      var ev :| ev in p.log && ev.ReaderFailed?;
      assert ev in p'.log;
    }
  }

  lemma {:induction false} ScannedAdmits(cfg: Config, world: World, p: Progress, dir: Dir, entries: seq<Entry>, readFails: bool)
    requires Admitted(p)
    ensures Admitted(Scanned(cfg, world, p, dir, entries, readFails))
    decreases Room(dir.path), 1, |entries|
  {
    if !p.visitFailed && !world.stops(p.polls) && entries != [] {
      var p1 := Polled(world, p);
      var x := Examine(cfg, dir, entries[0]);
      var p2 := if x.events == [] then p1 else Noted(cfg, p1, x.events[0]);
      AdmitsMore(p, p2);
      if x.descend.Some? && !p2.visitFailed {
        RecursedAdmits(cfg, world, p2, x.descend.value);
      }
      ScannedAdmits(cfg, world, Entered(cfg, world, p1, dir, entries[0]), dir, entries[1..], readFails);
    } else {
      AdmitsMore(p, Scanned(cfg, world, p, dir, entries, readFails));
    }
  }

  // ---------- the answers of the outside world ----------

  /** One reader is asked for per opened directory, and no answer goes unnoticed. */
  ghost predicate Attentive(world: World, p: Progress) {
    && p.allocations == p.stats.directoriesVisited
    && (p.stopSeen <==> exists k :: 0 <= k < p.polls && world.stops(k))
    && (p.readerMissing <==> exists k :: 0 <= k < p.allocations && world.readerFails(k))
  }

  lemma PolledIsAttentive(world: World, p: Progress)
    requires Attentive(world, p)
    ensures Attentive(world, Polled(world, p))
    ensures forall skipped :: world.stops(p.polls) ==> Attentive(world, CutOff(world, p, skipped))
  {
    var p' := Polled(world, p);
    assert p.polls < p'.polls;
    if k :| 0 <= k < p.polls && world.stops(k) {
      assert 0 <= k < p'.polls;
    }
  }

  lemma OpenedIsAttentive(cfg: Config, world: World, p: Progress, path: bytes)
    requires Attentive(world, p)
    ensures Attentive(world, Allocated(world, Noted(cfg, p, Opened(path))))
  {
    var p' := Allocated(world, Noted(cfg, p, Opened(path)));
    assert p.allocations < p'.allocations;
    if k :| 0 <= k < p.allocations && world.readerFails(k) {
      assert 0 <= k < p'.allocations;
    }
  }

  lemma {:induction false} RecursedIsAttentive(cfg: Config, world: World, p: Progress, dir: Dir)
    requires Attentive(world, p)
    ensures Attentive(world, Recursed(cfg, world, p, dir))
    decreases Room(dir.path), 2, 0
  {
    PolledIsAttentive(world, p);
    if !p.visitFailed && !world.stops(p.polls) && cfg.open(dir.path).Some? {
      var listing := cfg.open(dir.path).value;
      var p1 := Polled(world, p);
      OpenedIsAttentive(cfg, world, p1, dir.path);
      var p3 := Allocated(world, Noted(cfg, p1, Opened(dir.path)));
      if !world.readerFails(p1.allocations) {
        ScannedIsAttentive(cfg, world, p3, dir, listing.entries, listing.readFails);
      }
    }
  }

  lemma {:induction false} ScannedIsAttentive(cfg: Config, world: World, p: Progress, dir: Dir, entries: seq<Entry>, readFails: bool)
    requires Attentive(world, p)
    ensures Attentive(world, Scanned(cfg, world, p, dir, entries, readFails))
    decreases Room(dir.path), 1, |entries|
  {
    PolledIsAttentive(world, p);
    if !p.visitFailed && !world.stops(p.polls) && entries != [] {
      var p1 := Polled(world, p);
      var x := Examine(cfg, dir, entries[0]);
      var p2 := if x.events == [] then p1 else Noted(cfg, p1, x.events[0]);
      assert Attentive(world, p2);
      if x.descend.Some? && !p2.visitFailed {
        RecursedIsAttentive(cfg, world, p2, x.descend.value);
      }
      ScannedIsAttentive(cfg, world, Entered(cfg, world, p1, dir, entries[0]), dir, entries[1..], readFails);
    }
  }

  /**
   Over the whole walk: a stop was seen iff one of the answers given was yes, and a reader was missing iff the
   allocator failed for one of the directories that were opened.
   */
  lemma NoAnswerGoesUnnoticed(cfg: Config, world: World)
    requires cfg.root != []
    ensures var p := Final(cfg, world);
            && p.allocations == p.stats.directoriesVisited
            && (p.stopSeen <==> exists k :: 0 <= k < p.polls && world.stops(k))
            && (p.readerMissing <==> exists k :: 0 <= k < p.stats.directoriesVisited && world.readerFails(k))
  {
    RecursedIsAttentive(cfg, world, Fresh, At(cfg.root, 0));
  }

  // ---------- the whole walk ----------

  /** With no reader missing and nothing done behind a gap, the walk has done a prefix of the reference. */
  lemma UnresumedWalkIsAPrefix(cfg: Config, world: World)
    requires cfg.root != []
    requires var p := Final(cfg, world); !p.readerMissing && !Resumed(p)
    ensures Final(cfg, world).log <= Reference(cfg)
  {
    RecursedTracks(cfg, world, Fresh, At(cfg.root, 0));
    assert [] + Reference(cfg) == Reference(cfg);
  }

  /**
   For all answers of the stop check and the allocator: the walk has done a prefix of the reference
   exactly when no reader was missing and nothing happened after a stop answer that cut something off.
   */
  lemma InterruptedWalkIsAPrefix(cfg: Config, world: World)
    requires cfg.root != [] && SlashFree(cfg)
    ensures var p := Final(cfg, world);
            p.log <= Reference(cfg) <==> !p.readerMissing && !Resumed(p)
  {
    hide Recursed, DirTrace;
    var p := Final(cfg, world);
    var root := At(cfg.root, 0);
    RecursedTracks(cfg, world, Fresh, root);
    RecursedDiffers(cfg, world, Fresh, root);
    RecursedAdmits(cfg, world, Fresh, root);
    ReferenceMissesNoReader(cfg, root);
    assert [] + Reference(cfg) == Reference(cfg);
    var reference := Reference(cfg);
    if p.readerMissing {
      var ev :| ev in p.log && ev.ReaderFailed?;
      assert ev !in reference;
    }
  }

  // ---------- a walk that is not a prefix ----------

  const A: bytes := [65]
  const AB: bytes := [65, SLASH, 66]
  const AC: bytes := [65, SLASH, 67]

  /** An entry that is consistently of one type, and how the walk reports it. */
  function PlainEntry(name: byte, dType: byte, fileType: FileType): Entry {
    var stat := Some(Stat(fileType, 0, 0, 0, 0, 0));
    Entry([name], dType, stat, stat)
  }

  function Reports(path: bytes, kind: Kind): WalkEntry {
    WalkEntry(path, kind, 1, Details(0, 0, 0, 0, 0, true))
  }

  const B := PlainEntry(66, DT_DIR, Directory)
  const C := PlainEntry(67, DT_REG, Regular)

  /** The directory A holds the empty directory B and the file C. */
  function TwoEntries(): Config {
    Config(A, false, true,
           path => if path == A then Some(Listing([B, C], false))
                   else if path == AB then Some(Listing([], false)) else None,
           _ => true, _ => true, _ => true)
  }

  lemma TwoEntriesExamined()
    ensures Examine(TwoEntries(), At(A, 0), B) == Examined([FolderVisited(Reports(AB, Folder))], Some(At(AB, 1)))
    ensures Examine(TwoEntries(), At(A, 0), C) == Examined([FileVisited(Reports(AC, File))], None)
  {
    assert PathJoin.Joined(A, [66]) == AB && PathJoin.Joined(A, [67]) == AC;
  }

  lemma TwoEntriesReference()
    ensures Reference(TwoEntries())
         == [Opened(A), FolderVisited(Reports(AB, Folder)), Opened(AB), FileVisited(Reports(AC, File))]
  {
    var cfg, root := TwoEntries(), At(A, 0);
    TwoEntriesExamined();
    assert [B, C][1..] == [C] && [C][1..] == [];
    assert ScanTrace(cfg, root, [], false) == [];
    assert ScanTrace(cfg, root, [C], false) == [FileVisited(Reports(AC, File))];
    assert DirTrace(cfg, At(AB, 1)) == [Opened(AB)];
    assert ScanTrace(cfg, root, [B, C], false)
        == [FolderVisited(Reports(AB, Folder))] + [Opened(AB)] + [FileVisited(Reports(AC, File))];
  }

  /** The stop request is seen when B is to be entered and is withdrawn before A asks again. */
  const SeenOnce := World(k => k == 2, _ => false)

  /** A goes on with C, sees the end of the directory and is done. */
  lemma ScanningC(p: Progress)
    requires !p.visitFailed && p.polls == 3
    ensures Scanned(TwoEntries(), SeenOnce, p, At(A, 0), [C], false)
         == Polled(SeenOnce, Noted(TwoEntries(), Polled(SeenOnce, p), FileVisited(Reports(AC, File))))
  {
    var cfg, world := TwoEntries(), SeenOnce;
    TwoEntriesExamined();
    var p1 := Noted(cfg, Polled(world, p), FileVisited(Reports(AC, File)));
    assert Entered(cfg, world, Polled(world, p), At(A, 0), C) == p1;
    hide Entered, Examine;
    assert Scanned(cfg, world, p1, At(A, 0), [], false) == Polled(world, p1);
    assert [C][1..] == [];
  }

  /** A visits B, does not get into it, and goes on. */
  lemma ScanningBAndC(p: Progress)
    requires !p.visitFailed && p.polls == 1
    ensures var p1 := Noted(TwoEntries(), Polled(SeenOnce, p), FolderVisited(Reports(AB, Folder)));
            Scanned(TwoEntries(), SeenOnce, p, At(A, 0), [B, C], false)
            == Scanned(TwoEntries(), SeenOnce, CutOff(SeenOnce, p1, DirTrace(TwoEntries(), At(AB, 1))), At(A, 0), [C], false)
  {
    var cfg, world := TwoEntries(), SeenOnce;
    TwoEntriesExamined();
    var p1 := Noted(cfg, Polled(world, p), FolderVisited(Reports(AB, Folder)));
    assert Entered(cfg, world, Polled(world, p), At(A, 0), B) == CutOff(world, p1, DirTrace(cfg, At(AB, 1)));
    hide Entered, Examine, DirTrace;
    assert [B, C][1..] == [C];
  }

  lemma TwoEntriesWalked()
    ensures var p := Final(TwoEntries(), SeenOnce);
            && p.log == [Opened(A), FolderVisited(Reports(AB, Folder)), FileVisited(Reports(AC, File))]
            && p.gap == Some(Gap(2, DirTrace(TwoEntries(), At(AB, 1))[0]))
  {
    hide Scanned;
    var cfg, root, world := TwoEntries(), At(A, 0), SeenOnce;
    var p1 := Allocated(world, Noted(cfg, Polled(world, Fresh), Opened(A)));
    assert Final(cfg, world) == Scanned(cfg, world, p1, root, [B, C], false);
    var p2 := Noted(cfg, Polled(world, p1), FolderVisited(Reports(AB, Folder)));
    var p3 := CutOff(world, p2, DirTrace(cfg, At(AB, 1)));
    ScanningBAndC(p1);
    ScanningC(p3);
  }

  /** B is left out, C is visited: what was done is not a prefix of the reference. */
  lemma WithdrawnStopLeavesAGap()
    ensures var p := Final(TwoEntries(), SeenOnce);
            && p.log == [Opened(A), FolderVisited(Reports(AB, Folder)), FileVisited(Reports(AC, File))]
            && !(p.log <= Reference(TwoEntries())) && Resumed(p)
  {
    hide Final, Reference;
    TwoEntriesWalked();
    TwoEntriesReference();
    assert Final(TwoEntries(), SeenOnce).log[2] != Reference(TwoEntries())[2];
  }

  /** Nothing has happened since the gap, and the stop request that made it is still there. */
  ghost predicate StaysCut(world: World, p: Progress) {
    p.gap.Some? ==> |p.log| == p.gap.value.at && world.stops(p.polls)
  }

  lemma {:induction false} RecursedStaysCut(cfg: Config, world: World, p: Progress, dir: Dir)
    requires StickyStop(world) && StaysCut(world, p)
    ensures StaysCut(world, Recursed(cfg, world, p, dir))
    decreases Room(dir.path), 2, 0
  {
    if !p.visitFailed && !world.stops(p.polls) && cfg.open(dir.path).Some? {
      var listing := cfg.open(dir.path).value;
      var p2 := Noted(cfg, Polled(world, p), Opened(dir.path));
      if !world.readerFails(p2.allocations) {
        ScannedStaysCut(cfg, world, Allocated(world, p2), dir, listing.entries, listing.readFails);
      }
    }
  }

  lemma {:induction false} ScannedStaysCut(cfg: Config, world: World, p: Progress, dir: Dir, entries: seq<Entry>, readFails: bool)
    requires StickyStop(world) && StaysCut(world, p)
    ensures StaysCut(world, Scanned(cfg, world, p, dir, entries, readFails))
    decreases Room(dir.path), 1, |entries|
  {
    if !p.visitFailed && !world.stops(p.polls) && entries != [] {
      var p1 := Polled(world, p);
      var x := Examine(cfg, dir, entries[0]);
      var p2 := if x.events == [] then p1 else Noted(cfg, p1, x.events[0]);
      if x.descend.Some? && !p2.visitFailed {
        RecursedStaysCut(cfg, world, p2, x.descend.value);
      }
      ScannedStaysCut(cfg, world, Entered(cfg, world, p1, dir, entries[0]), dir, entries[1..], readFails);
    }
  }

  /** A stop request that is never withdrawn is never followed by anything. */
  lemma StayingStopNeverResumes(cfg: Config, world: World)
    requires cfg.root != [] && StickyStop(world)
    ensures !Resumed(Final(cfg, world))
  {
    RecursedStaysCut(cfg, world, Fresh, At(cfg.root, 0));
  }

  /** Nor is one that is seen at the first question only: nothing is done at all. */
  lemma StopAtTheStartNeverResumes(cfg: Config, world: World)
    requires cfg.root != [] && world.stops(0)
    ensures Final(cfg, world).log == [] && !Resumed(Final(cfg, world))
  {
  }
}
