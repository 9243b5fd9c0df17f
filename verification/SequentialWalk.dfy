/**
 The recursive walk as it is coded (src/walk/bc_io_walk_sequential.c), with its early
 exits: a rejected visit, a stop request and a missing reader. The stop check and the
 reader allocation answer from given sequences of answers.
 */
module SequentialWalk {
  import opened Bytes
  import opened WalkReference
  import opened WalkStats
  import opened WalkProtocol

  /** Answers of the outside world, by number of the call. */
  datatype World = World(stops: nat -> bool, readerFails: nat -> bool)

  /** A stop request that is never withdrawn. */
  ghost predicate StickyStop(world: World) {
    forall j, k :: 0 <= j <= k && world.stops(j) ==> world.stops(k)
  }

  /** After this many events the reference goes on with `missed`, which a stop answer cut off. */
  datatype Gap = Gap(at: nat, missed: Event)

  /**
   The walker's state: the source's struct, the calls made so far, and the history. `gap` is
   where a stop answer first left something of the reference out.
   */
  datatype Progress = Progress(
    stats: Stats,
    visitFailed: bool,
    polls: nat,
    allocations: nat,
    log: seq<Event>,
    stopSeen: bool,
    readerMissing: bool,
    gap: Option<Gap>)

  const Fresh := Progress(ZeroStats, false, 0, 0, [], false, false, None)

  // ---------- the recursion as a function of the state ----------

  function Polled(world: World, p: Progress): Progress {
    p.(polls := p.polls + 1, stopSeen := p.stopSeen || world.stops(p.polls))
  }

  /** After a stop answer that makes the walk leave `skipped` out. */
  function CutOff(world: World, p: Progress, skipped: seq<Event>): Progress {
    var p' := Polled(world, p);
    if p.gap.None? && skipped != [] then p'.(gap := Some(Gap(|p.log|, skipped[0]))) else p'
  }

  function Allocated(world: World, p: Progress): Progress {
    p.(allocations := p.allocations + 1, readerMissing := p.readerMissing || world.readerFails(p.allocations))
  }

  function Noted(cfg: Config, p: Progress, ev: Event): Progress {
    p.(stats := Bump(p.stats, ev), log := p.log + [ev], visitFailed := p.visitFailed || Rejects(cfg, ev))
  }

  function Recursed(cfg: Config, world: World, p: Progress, dir: Dir): Progress
    decreases Room(dir.path), 2, 0
  {
    if p.visitFailed then p
    else if world.stops(p.polls) then CutOff(world, p, DirTrace(cfg, dir))
    else
      var p1 := Polled(world, p);
      match cfg.open(dir.path)
      case None => Noted(cfg, p1, OpenFailed(dir.path))
      case Some(listing) =>
        var p2 := Noted(cfg, p1, Opened(dir.path));
        var p3 := Allocated(world, p2);
        if world.readerFails(p2.allocations) then Noted(cfg, p3, ReaderFailed(dir.path))
        else Scanned(cfg, world, p3, dir, listing.entries, listing.readFails)
  }

  function Scanned(cfg: Config, world: World, p: Progress, dir: Dir, entries: seq<Entry>, readFails: bool): Progress
    decreases Room(dir.path), 1, |entries|
  {
    if p.visitFailed then p
    else if world.stops(p.polls) then CutOff(world, p, ScanTrace(cfg, dir, entries, readFails))
    else
      var p1 := Polled(world, p);
      if entries == [] then
        if readFails then Noted(cfg, p1, ReadFailed(dir.path)) else p1
      else
        Scanned(cfg, world, Entered(cfg, world, p1, dir, entries[0]), dir, entries[1..], readFails)
  }

  function Entered(cfg: Config, world: World, p: Progress, dir: Dir, entry: Entry): Progress
    decreases Room(dir.path), 0, 0
  {
    var x := Examine(cfg, dir, entry);
    var p1 := if x.events == [] then p else Noted(cfg, p, x.events[0]);
    match x.descend
    case Some(sub) => if p1.visitFailed then p1 else Recursed(cfg, world, p1, sub)
    case None => p1
  }

  // ---------- the code ----------

  class Walker {
    const config: Config
    const world: World
    var stats: Stats
    var visitFailed: bool
    var polls: nat
    var allocations: nat
    ghost var log: seq<Event>
    ghost var stopSeen: bool
    ghost var readerMissing: bool
    ghost var gap: Option<Gap>

    constructor (config: Config, world: World)
      ensures this.config == config && this.world == world && View() == Fresh
    {
      this.config := config;
      this.world := world;
      stats, visitFailed := ZeroStats, false;
      polls, allocations := 0, 0;
      log, stopSeen, readerMissing, gap := [], false, false, None;
    }

    ghost function View(): Progress
      reads this
    {
      Progress(stats, visitFailed, polls, allocations, log, stopSeen, readerMissing, gap)
    }

    /** Asks whether to stop; if so, `skipped` is what the caller will leave out. */
    method ShouldStop(ghost skipped: seq<Event>) returns (stop: bool)
      modifies this
      ensures stop == world.stops(old(polls))
      ensures View() == if stop then CutOff(world, old(View()), skipped) else Polled(world, old(View()))
    {
      stop := world.stops(polls);
      if stop && gap.None? && skipped != [] {
        gap := Some(Gap(|log|, skipped[0]));
      }
      polls := polls + 1;
      stopSeen := stopSeen || stop;
    }

    method CreateReader() returns (ok: bool)
      modifies this
      ensures ok == !world.readerFails(old(allocations)) && View() == Allocated(world, old(View()))
    {
      ok := !world.readerFails(allocations);
      allocations := allocations + 1;
      readerMissing := readerMissing || !ok;
    }

    /** Counts and reports one event; a rejected visit sets the flag. */
    method Report(ev: Event)
      modifies this
      ensures View() == Noted(config, old(View()), ev)
    {
      stats := Bump(stats, ev);
      if Rejects(config, ev) {
        visitFailed := true;
      }
      log := log + [ev];
    }

    method Recurse(dir: Dir)
      modifies this
      ensures View() == Recursed(config, world, old(View()), dir)
      decreases Room(dir.path), 1
    {
      if visitFailed {
        return;
      }
      var stop := ShouldStop(DirTrace(config, dir));
      if stop {
        return;
      }
      var contents := config.open(dir.path);
      if contents.None? {
        Report(OpenFailed(dir.path));
        return;
      }
      Report(Opened(dir.path));
      var ok := CreateReader();
      if !ok {
        Report(ReaderFailed(dir.path));
        return;
      }
      ReadEntries(dir, contents.value.entries, contents.value.readFails);
    }

    method ReadEntries(dir: Dir, entries: seq<Entry>, readFails: bool)
      modifies this
      ensures View() == Scanned(config, world, old(View()), dir, entries, readFails)
      decreases Room(dir.path), 0
    {
      var next := 0;
      assert entries[0..] == entries;
      while true
        invariant 0 <= next <= |entries|
        invariant Scanned(config, world, View(), dir, entries[next..], readFails)
               == Scanned(config, world, old(View()), dir, entries, readFails)
        decreases |entries| - next
      {
        if visitFailed {
          break;
        }
        var stop := ShouldStop(ScanTrace(config, dir, entries[next..], readFails));
        if stop {
          break;
        }
        if next == |entries| {
          if readFails {
            Report(ReadFailed(dir.path));
          }
          break;
        }
        var x := Examine(config, dir, entries[next]);
        assert entries[next..][1..] == entries[next + 1..];
        next := next + 1;
        if x.events != [] {
          Report(x.events[0]);
          if visitFailed {
            break;
          }
        }
        if x.descend.Some? {
          Recurse(x.descend.value);
        }
      }
    }
  }
}
