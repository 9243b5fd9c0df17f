/**
 What the coded recursion does, for all answers of the outside world: exactly the
 reference trace when left alone, never anything the reference does not do as often.
 */
module SequentialResult {
  import opened WalkReference
  import opened WalkStats
  import opened WalkProtocol
  import opened WalkFailure
  import opened WalkTheorems
  import opened SequentialWalk

  /** How often an event may happen in a part of the reference: a reader can be missing once for each opening. */
  ghost function Allowed(part: seq<Event>, ev: Event): nat {
    multiset(part)[if ev.ReaderFailed? then Opened(ev.path) else ev]
  }

  /** Whatever happened between two logs, it was nothing beyond `part`, missing readers apart. */
  ghost predicate Within(before: seq<Event>, after: seq<Event>, part: seq<Event>) {
    forall ev :: multiset(after)[ev] <= multiset(before)[ev] + Allowed(part, ev)
  }

  /**
   How much of `part` was performed between two logs. Nothing beyond it in any case. With no
   reader missing: left alone, all of it, in order, and a prefix of it unless a stop request came and went.
   */
  ghost predicate Performed(before: seq<Event>, after: seq<Event>, part: seq<Event>,
                            halted: bool, missing: bool, ordered: bool) {
    && Within(before, after, part)
    && (!missing ==>
          && multiset(after) <= multiset(before) + multiset(part)
          && (!halted ==> after == before + part)
          && (ordered ==> after <= before + part))
  }

  lemma WithinThen(a: seq<Event>, b: seq<Event>, c: seq<Event>, first: seq<Event>, second: seq<Event>)
    requires Within(a, b, first) && Within(b, c, second)
    ensures Within(a, c, first + second)
  {
    assert multiset(first + second) == multiset(first) + multiset(second);
    forall ev ensures multiset(c)[ev] <= multiset(a)[ev] + Allowed(first + second, ev) {
      assert multiset(b)[ev] <= multiset(a)[ev] + Allowed(first, ev);
      assert multiset(c)[ev] <= multiset(b)[ev] + Allowed(second, ev);
    }
  }

  predicate Halted(p: Progress) {
    p.visitFailed || p.stopSeen
  }

  /** No stop request was seen, or none is ever withdrawn. */
  ghost predicate Ordered(world: World, p: Progress) {
    !p.stopSeen || StickyStop(world)
  }

  /** From `p` to `p'`, `part` was performed as far as the circumstances allow. */
  ghost predicate Does(world: World, p: Progress, p': Progress, part: seq<Event>) {
    && Performed(p.log, p'.log, part, Halted(p'), p'.readerMissing, Ordered(world, p'))
    && (p.visitFailed ==> p'.visitFailed)
    && (p.stopSeen ==> p'.stopSeen)
    && (p.readerMissing ==> p'.readerMissing)
    && (p.visitFailed || (p.stopSeen && StickyStop(world)) ==> p'.log == p.log)
  }

  /** The last visit, and no other, was rejected. */
  ghost predicate EndsRejected(cfg: Config, log: seq<Event>) {
    log != [] && Rejects(cfg, log[|log| - 1]) && !RejectedIn(cfg, log[..|log| - 1])
  }

  /** A rejected visit is the last thing that happened, and the counters match the log. */
  ghost predicate Sound(cfg: Config, world: World, p: Progress) {
    && p.stats == Tally(p.log)
    && (if p.visitFailed then EndsRejected(cfg, p.log) else !RejectedIn(cfg, p.log))
    && (p.stopSeen ==> exists k :: 0 <= k < p.polls && world.stops(k))
  }

  lemma PolledIsSound(cfg: Config, world: World, p: Progress)
    requires Sound(cfg, world, p)
    ensures Sound(cfg, world, Polled(world, p))
    ensures StickyStop(world) && p.stopSeen ==> world.stops(p.polls)
  {
    if p.stopSeen {
      var k :| 0 <= k < p.polls && world.stops(k);
    } else if world.stops(p.polls) {
      assert p.polls < Polled(world, p).polls;
    }
  }

  lemma NotedIsSound(cfg: Config, world: World, p: Progress, ev: Event)
    requires Sound(cfg, world, p) && !p.visitFailed
    ensures Sound(cfg, world, Noted(cfg, p, ev))
  {
    TallyAppend(p.log, ev);
    assert (p.log + [ev])[..|p.log|] == p.log;
  }

  // ---------- composing ----------

  lemma PerformedThen(a: seq<Event>, b: seq<Event>, c: seq<Event>, first: seq<Event>, second: seq<Event>,
                      halted1: bool, halted2: bool, missing1: bool, missing2: bool, ordered1: bool, ordered2: bool)
    requires Performed(a, b, first, halted1, missing1, ordered1) && Performed(b, c, second, halted2, missing2, ordered2)
    requires (halted1 ==> halted2) && (missing1 ==> missing2) && (ordered2 ==> ordered1)
    requires halted1 && ordered2 ==> c == b
    ensures Performed(a, c, first + second, halted2, missing2, ordered2)
  {
    WithinThen(a, b, c, first, second);
    assert multiset(first + second) == multiset(first) + multiset(second);
    assert a + (first + second) == (a + first) + second;
  }

  lemma DoesThen(world: World, p: Progress, q: Progress, r: Progress, first: seq<Event>, second: seq<Event>)
    requires Does(world, p, q, first) && Does(world, q, r, second)
    ensures Does(world, p, r, first + second)
  {
    PerformedThen(p.log, q.log, r.log, first, second, Halted(q), Halted(r), q.readerMissing, r.readerMissing,
                  Ordered(world, q), Ordered(world, r));
  }

  /** A halted walk that does nothing has done as much as it can of anything. */
  lemma DoesNothing(world: World, p: Progress, p': Progress, part: seq<Event>)
    requires p'.log == p.log && Halted(p')
    requires (p.visitFailed ==> p'.visitFailed) && (p.stopSeen ==> p'.stopSeen) && p.readerMissing == p'.readerMissing
    ensures Does(world, p, p', part)
  {
    assert p.log <= p.log + part;
  }

  lemma DoesEvent(cfg: Config, world: World, p: Progress, ev: Event)
    requires !p.visitFailed && (p.stopSeen ==> !StickyStop(world)) && !ev.ReaderFailed?
    ensures Does(world, p, Noted(cfg, p, ev), [ev])
  {
    assert multiset(p.log + [ev]) == multiset(p.log) + multiset([ev]);
  }

  // ---------- the recursion ----------

  lemma {:induction false} RecursedDoes(cfg: Config, world: World, p: Progress, dir: Dir)
    requires Sound(cfg, world, p)
    ensures Sound(cfg, world, Recursed(cfg, world, p, dir))
    ensures Does(world, p, Recursed(cfg, world, p, dir), DirTrace(cfg, dir))
    decreases Room(dir.path), 2, 0
  {
    var trace := DirTrace(cfg, dir);
    var p1 := Polled(world, p);
    PolledIsSound(cfg, world, p);
    if p.visitFailed {
      DoesNothing(world, p, p, trace);
    } else if world.stops(p.polls) {
      DoesNothing(world, p, CutOff(world, p, trace), trace);
    } else {
      OpenedDoes(cfg, world, p1, dir);
    }
  }

  /** Past the checks at the start of the recursion. */
  lemma {:induction false} OpenedDoes(cfg: Config, world: World, p: Progress, dir: Dir)
    requires Sound(cfg, world, p) && !p.visitFailed && (p.stopSeen ==> !StickyStop(world))
    ensures var p' := match cfg.open(dir.path)
              case None => Noted(cfg, p, OpenFailed(dir.path))
              case Some(listing) =>
                var p2 := Noted(cfg, p, Opened(dir.path));
                var p3 := Allocated(world, p2);
                if world.readerFails(p2.allocations) then Noted(cfg, p3, ReaderFailed(dir.path))
                else Scanned(cfg, world, p3, dir, listing.entries, listing.readFails);
            Sound(cfg, world, p') && Does(world, p, p', DirTrace(cfg, dir))
    decreases Room(dir.path), 1, 0
  {
    hide Scanned, ScanTrace;
    match cfg.open(dir.path)
    case None =>
      NotedIsSound(cfg, world, p, OpenFailed(dir.path));
      DoesEvent(cfg, world, p, OpenFailed(dir.path));
    case Some(listing) =>
      var p2 := Noted(cfg, p, Opened(dir.path));
      var p3 := Allocated(world, p2);
      NotedIsSound(cfg, world, p, Opened(dir.path));
      var scan := ScanTrace(cfg, dir, listing.entries, listing.readFails);
      if world.readerFails(p2.allocations) {
        NotedIsSound(cfg, world, p3, ReaderFailed(dir.path));
        MissingReaderDoes(cfg, world, p, dir, scan);
      } else {
        DoesEvent(cfg, world, p, Opened(dir.path));
        ScannedDoes(cfg, world, p3, dir, listing.entries, listing.readFails);
        DoesThen(world, p, p3, Scanned(cfg, world, p3, dir, listing.entries, listing.readFails),
                 [Opened(dir.path)], scan);
      }
  }

  /** A missing reader is reported instead of the scan. */
  lemma MissingReaderDoes(cfg: Config, world: World, p: Progress, dir: Dir, scan: seq<Event>)
    requires !p.visitFailed && (p.stopSeen ==> !StickyStop(world))
    requires world.readerFails(p.allocations)
    ensures Does(world, p, Noted(cfg, Allocated(world, Noted(cfg, p, Opened(dir.path))), ReaderFailed(dir.path)),
                 [Opened(dir.path)] + scan)
  {
    var first, second := Opened(dir.path), ReaderFailed(dir.path);
    assert multiset(p.log + [first] + [second]) == multiset(p.log) + multiset{first, second};
    assert multiset([first] + scan) == multiset{first} + multiset(scan);
  }

  /** What the reference does for one entry. */
  ghost function EntryTrace(cfg: Config, dir: Dir, entry: Entry): seq<Event> {
    var x := Examine(cfg, dir, entry);
    x.events + DescentTrace(cfg, x.descend)
  }

  lemma {:induction false} ScannedDoes(cfg: Config, world: World, p: Progress, dir: Dir, entries: seq<Entry>, readFails: bool)
    requires Sound(cfg, world, p)
    ensures Sound(cfg, world, Scanned(cfg, world, p, dir, entries, readFails))
    ensures Does(world, p, Scanned(cfg, world, p, dir, entries, readFails), ScanTrace(cfg, dir, entries, readFails))
    decreases Room(dir.path), 0, |entries|, 1
  {
    var trace := ScanTrace(cfg, dir, entries, readFails);
    var p1 := Polled(world, p);
    PolledIsSound(cfg, world, p);
    if p.visitFailed {
      DoesNothing(world, p, p, trace);
    } else if world.stops(p.polls) {
      DoesNothing(world, p, CutOff(world, p, trace), trace);
    } else if entries == [] {
      if readFails {
        NotedIsSound(cfg, world, p1, ReadFailed(dir.path));
        DoesEvent(cfg, world, p1, ReadFailed(dir.path));
      }
    } else {
      var p2 := Entered(cfg, world, p1, dir, entries[0]);
      EnteredDoes(cfg, world, p1, dir, entries[0]);
      ScannedDoes(cfg, world, p2, dir, entries[1..], readFails);
      DoesThen(world, p1, p2, Scanned(cfg, world, p2, dir, entries[1..], readFails),
               EntryTrace(cfg, dir, entries[0]), ScanTrace(cfg, dir, entries[1..], readFails));
      assert trace == EntryTrace(cfg, dir, entries[0]) + ScanTrace(cfg, dir, entries[1..], readFails);
    }
  }

  lemma {:induction false} EnteredDoes(cfg: Config, world: World, p: Progress, dir: Dir, entry: Entry)
    requires Sound(cfg, world, p) && !p.visitFailed && (p.stopSeen ==> !StickyStop(world))
    ensures Sound(cfg, world, Entered(cfg, world, p, dir, entry))
    ensures Does(world, p, Entered(cfg, world, p, dir, entry), EntryTrace(cfg, dir, entry))
    decreases Room(dir.path), 0, 0
  {
    hide Does, Sound, DirTrace, ScanTrace;
    var x := Examine(cfg, dir, entry);
    var p1 := if x.events == [] then p else Noted(cfg, p, x.events[0]);
    ExaminedDoes(cfg, world, p, x);
    match x.descend
    case None =>
      assert EntryTrace(cfg, dir, entry) == x.events;
    case Some(sub) =>
      var below := DirTrace(cfg, sub);
      if p1.visitFailed {
        DoesNothing(world, p1, p1, below);
        DoesThen(world, p, p1, p1, x.events, below);
      } else {
        RecursedDoes(cfg, world, p1, sub);
        DoesThen(world, p, p1, Recursed(cfg, world, p1, sub), x.events, below);
      }
  }

  lemma ExaminedDoes(cfg: Config, world: World, p: Progress, x: Examined)
    requires Sound(cfg, world, p) && !p.visitFailed && (p.stopSeen ==> !StickyStop(world)) && |x.events| <= 1
    requires x.events == [] || !x.events[0].ReaderFailed?
    ensures var p1 := if x.events == [] then p else Noted(cfg, p, x.events[0]);
            Sound(cfg, world, p1) && Does(world, p, p1, x.events)
  {
    if x.events == [] {
      assert p.log + [] == p.log;
    } else {
      NotedIsSound(cfg, world, p, x.events[0]);
      DoesEvent(cfg, world, p, x.events[0]);
      assert x.events == [x.events[0]];
    }
  }

  // ---------- the whole walk ----------

  ghost function Final(cfg: Config, world: World): Progress
    requires cfg.root != []
  {
    Recursed(cfg, world, Fresh, At(cfg.root, 0))
  }

  /** Left alone, the coded walk performs the reference trace and counts it. */
  lemma UndisturbedWalkIsTheReference(cfg: Config, world: World)
    requires cfg.root != []
    requires var p := Final(cfg, world); !p.stopSeen && !p.readerMissing && !p.visitFailed
    ensures var p := Final(cfg, world); p.log == Reference(cfg) && p.stats == Tally(Reference(cfg))
  {
    RecursedDoes(cfg, world, Fresh, At(cfg.root, 0));
    assert [] + Reference(cfg) == Reference(cfg);
  }

  /**
   Nothing is done beyond the reference, whatever the stop check and the allocator answer; with no
   reader missing, a rejected visit is the last event of the walk. When the walk has done a
   prefix of the reference is settled in SequentialInterruption.
   */
  lemma NeverMoreThanTheReference(cfg: Config, world: World)
    requires cfg.root != []
    ensures Within([], Final(cfg, world).log, Reference(cfg))
    ensures !Final(cfg, world).readerMissing ==> multiset(Final(cfg, world).log) <= multiset(Reference(cfg))
    ensures Final(cfg, world).visitFailed ==> EndsRejected(cfg, Final(cfg, world).log)
    ensures var log := Final(cfg, world).log;
            Final(cfg, world).visitFailed ==>
              && log != [] && (log[|log| - 1].FileVisited? || log[|log| - 1].FolderVisited?) && !cfg.visit(log[|log| - 1].entry)
              && forall ev :: ev in log[..|log| - 1] && (ev.FileVisited? || ev.FolderVisited?) ==> cfg.visit(ev.entry)
  {
    var log := Final(cfg, world).log;
    if log != [] {
      NoRejectionMeansAccepted(cfg, log[..|log| - 1]);
    }
    RecursedDoes(cfg, world, Fresh, At(cfg.root, 0));
    assert [] + Reference(cfg) == Reference(cfg);
    assert multiset([]) + multiset(Reference(cfg)) == multiset(Reference(cfg));
  }

  /** Not stopped and not short of readers, the walk fails exactly when the reference contains a rejected visit. */
  lemma VerdictOfSequentialWalk(cfg: Config, world: World)
    requires cfg.root != []
    requires var p := Final(cfg, world); !p.stopSeen && !p.readerMissing
    ensures Final(cfg, world).visitFailed <==> RejectedIn(cfg, Reference(cfg))
    ensures !Final(cfg, world).visitFailed <==>
              forall ev :: ev in Reference(cfg) && (ev.FileVisited? || ev.FolderVisited?) ==> cfg.visit(ev.entry)
  {
    NoRejectionMeansAccepted(cfg, Reference(cfg));
    var p := Final(cfg, world);
    RecursedDoes(cfg, world, Fresh, At(cfg.root, 0));
    if p.visitFailed {
      NeverMoreThanTheReference(cfg, world);
      var ev := p.log[|p.log| - 1];
      assert ev in multiset(p.log);
      assert ev in multiset(Reference(cfg));
    } else {
      UndisturbedWalkIsTheReference(cfg, world);
    }
  }
}
