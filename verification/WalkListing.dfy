/**
 The order of one directory's events in the parallel walk (src/walk/bc_io_walk_parallel.c:103-243):
 in every run what a directory causes comes in the order of its listing, whatever the workers
 do in between, and a complete run contains all of it.
 */
module WalkListing {
  import opened Bytes
  import opened WalkReference
  import opened WalkProtocol
  import opened WalkTheorems
  import opened WalkOnce
  import PathJoin
  import WalkOrder

  // ---------- the events of one directory ----------

  /** `path` names an entry of the directory `base`. */
  predicate IsChild(base: bytes, path: bytes) {
    base + [SLASH] <= path && PathJoin.IsComponent(path[|base| + 1..])
  }

  /** The event is caused by the directory `base` itself. A missing reader is not: the directory was never read. */
  predicate Belongs(base: bytes, ev: Event) {
    match ev
    case Opened(path) => path == base
    case OpenFailed(path) => path == base
    case ReadFailed(path) => path == base
    case PathTooLong(path) => path == base
    case ReaderFailed(_) => false
    case StatFailed(path) => IsChild(base, path)
    case Filtered(e) => IsChild(base, e.path)
    case FileVisited(e) => IsChild(base, e.path)
    case FolderVisited(e) => IsChild(base, e.path)
  }

  /** The events of the log that the directory `base` caused, in the order of the log. */
  function Caused(base: bytes, log: seq<Event>): seq<Event> {
    if log == [] then []
    else Caused(base, log[..|log| - 1]) + if Belongs(base, log[|log| - 1]) then [log[|log| - 1]] else []
  }

  /** What a directory causes from some entry on, in the order of the listing; its subdirectories left out. */
  function Listed(cfg: Config, dir: Dir, entries: seq<Entry>, readFails: bool): seq<Event> {
    if entries == [] then
      if readFails then [ReadFailed(dir.path)] else []
    else
      Examine(cfg, dir, entries[0]).events + Listed(cfg, dir, entries[1..], readFails)
  }

  function OwnEvents(cfg: Config, dir: Dir): seq<Event> {
    match cfg.open(dir.path)
    case None => [OpenFailed(dir.path)]
    case Some(listing) => [Opened(dir.path)] + Listed(cfg, dir, listing.entries, listing.readFails)
  }

  /** The events of `base` that an action is still going to cause, subdirectories not yet opened left out. */
  function PendingBy(cfg: Config, base: bytes, action: Action): seq<Event> {
    match action
    case Emit(ev) => if Belongs(base, ev) then [ev] else []
    case Scan(dir, entries, readFails) => if dir.path == base then Listed(cfg, dir, entries, readFails) else []
    case _ => []
  }

  function Pending(cfg: Config, base: bytes, todo: seq<Action>): seq<Event> {
    if todo == [] then [] else PendingBy(cfg, base, todo[0]) + Pending(cfg, base, todo[1..])
  }

  function PendingAt(cfg: Config, base: bytes, w: Worker): seq<Event> {
    if w.Busy? then Pending(cfg, base, w.todo) else []
  }

  lemma {:induction false} PendingConcat(cfg: Config, base: bytes, a: seq<Action>, b: seq<Action>)
    ensures Pending(cfg, base, a + b) == Pending(cfg, base, a) + Pending(cfg, base, b)
  {
    if a == [] {
      assert a + b == b;
    } else {
      assert (a + b)[1..] == a[1..] + b;
      PendingConcat(cfg, base, a[1..], b);
    }
  }

  lemma PendingFirst(cfg: Config, base: bytes, action: Action, rest: seq<Action>)
    ensures Pending(cfg, base, [action] + rest) == Pending(cfg, base, [action]) + Pending(cfg, base, rest)
  {
    PendingConcat(cfg, base, [action], rest);
  }

  lemma CausedAppend(base: bytes, log: seq<Event>, more: seq<Event>)
    requires |more| <= 1
    ensures Caused(base, log + more) == Caused(base, log) + Caused(base, more)
  {
    if more == [] {
      assert log + more == log;
    } else {
      assert (log + more)[..|log + more| - 1] == log && more[..0] == [];
    }
  }

  // ---------- reading one entry ----------

  /** What an entry causes belongs to the directory that lists it, and to no other. */
  lemma EntryBelongs(cfg: Config, base: bytes, dir: Dir, entry: Entry)
    requires PathJoin.IsComponent(entry.name)
    ensures forall ev :: ev in Examine(cfg, dir, entry).events ==> (Belongs(base, ev) <==> base == dir.path)
  {
    var path := PathJoin.Joined(dir.path, entry.name);
    ChildOfOne(base, dir.path, entry.name);
  }

  lemma ChildOfOne(base: bytes, dirPath: bytes, name: bytes)
    requires PathJoin.IsComponent(name) && dirPath != []
    ensures IsChild(base, PathJoin.Joined(dirPath, name)) <==> base == dirPath
  {
    var path := PathJoin.Joined(dirPath, name);
    PathJoin.LastSlash(dirPath, name);
    assert path[|dirPath| + 1..] == name && dirPath + [SLASH] <= path;
    if base + [SLASH] <= path {
      assert path[|base|] == (base + [SLASH])[|base|] == SLASH;
      if |base| < |dirPath| {
        SlashInside(base, path, |dirPath|);
      } else {
        assert base == path[..|base|] == path[..|dirPath|] == dirPath;
      }
    }
  }

  lemma SlashInside(base: bytes, path: bytes, k: nat)
    requires |base| < k < |path| && path[k] == SLASH
    ensures !IsChild(base, path)
  {
    assert path[|base| + 1..][k - |base| - 1] == SLASH;
  }

  lemma PendingOfEntry(cfg: Config, base: bytes, dir: Dir, entry: Entry)
    requires PathJoin.IsComponent(entry.name)
    ensures var x := Examine(cfg, dir, entry);
            Pending(cfg, base, EntryPlan(x)) == if base == dir.path then x.events else []
  {
    var x := Examine(cfg, dir, entry);
    EntryBelongs(cfg, base, dir, entry);
    var announce := if x.descend.Some? then [Announce(x.descend.value)] else [];
    PendingConcat(cfg, base, EmitAll(x.events), announce);
    assert Pending(cfg, base, announce) == [];
    if x.events != [] {
      assert x.events == [x.events[0]] && x.events[1..] == [];
      assert EmitAll(x.events) == [Emit(x.events[0])];
      assert [Emit(x.events[0])][1..] == [];
    }
  }

  /** The entries still to be read have names that are single components. */
  ghost predicate NamedTodo(todo: seq<Action>) {
    forall a, e :: a in todo && a.Scan? && e in a.entries ==> PathJoin.IsComponent(e.name)
  }

  // ---------- one move ----------

  /**
   A move only shifts events of `base` from what is pending to the log, or gives the rest up;
   unless it opens `base`, which makes all its own events pending.
   */
  ghost predicate Shifts(cfg: Config, base: bytes, w: Worker, m: Move) {
    var pending, after, now := PendingAt(cfg, base, w), PendingAt(cfg, base, m.next), Caused(base, Reported(m.op));
    if Opens(base, m) then
      exists dir: Dir :: dir.path == base && m.dropped == [] && now + after == OwnEvents(cfg, dir) + pending
    else
      now + after + Pending(cfg, base, m.dropped) == pending
  }

  predicate Opens(base: bytes, m: Move) {
    m.op == Report(Opened(base)) || m.op == Report(OpenFailed(base))
  }

  lemma CausedOne(base: bytes, ev: Event)
    ensures Caused(base, [ev]) == if Belongs(base, ev) then [ev] else []
  {
    assert [ev][..0] == [];
  }

  /** A move that reports nothing only has to keep what is pending, or to give the rest of it up. */
  lemma SilentShifts(cfg: Config, base: bytes, w: Worker, m: Move)
    requires Reported(m.op) == []
    requires PendingAt(cfg, base, m.next) + Pending(cfg, base, m.dropped) == PendingAt(cfg, base, w)
    ensures Shifts(cfg, base, w, m)
  {
    hide Pending, PendingAt;
    var after, dropped := PendingAt(cfg, base, m.next), Pending(cfg, base, m.dropped);
    assert [] + after + dropped == after + dropped;
  }

  lemma PendingOne(cfg: Config, base: bytes, action: Action)
    ensures Pending(cfg, base, [action]) == PendingBy(cfg, base, action)
  {
    assert [action][1..] == [];
  }

  lemma OpenShifts(cfg: Config, capacity: nat, base: bytes, s: State, c: Choice, todo: seq<Action>)
    requires todo != [] && todo[0].Open?
    ensures Shifts(cfg, base, Busy(todo), Perform(cfg, capacity, s, c, todo))
  {
    hide Shifts, Pending, OwnEvents;
    match cfg.open(todo[0].dir.path)
    case None => OpenFailedShifts(cfg, base, todo);
    case Some(listing) => OpenedShifts(cfg, base, todo, listing);
  }

  lemma OpenFailedShifts(cfg: Config, base: bytes, todo: seq<Action>)
    requires todo != [] && todo[0].Open? && cfg.open(todo[0].dir.path) == None
    ensures Shifts(cfg, base, Busy(todo), Move(Report(OpenFailed(todo[0].dir.path)), Busy(todo[1..]), []))
  {
    var dir, rest := todo[0].dir, Pending(cfg, base, todo[1..]);
    CausedOne(base, OpenFailed(dir.path));
    assert Pending(cfg, base, todo) == rest && Pending(cfg, base, []) == [];
    assert OwnEvents(cfg, dir) == [OpenFailed(dir.path)];
    hide Pending, OwnEvents, Caused;
    assert [] + rest + [] == rest;
  }

  lemma OpenedShifts(cfg: Config, base: bytes, todo: seq<Action>, listing: Listing)
    requires todo != [] && todo[0].Open? && cfg.open(todo[0].dir.path) == Some(listing)
    ensures var dir := todo[0].dir;
            Shifts(cfg, base, Busy(todo),
                   Move(Report(Opened(dir.path)), Busy([Scan(dir, listing.entries, listing.readFails)] + todo[1..]), []))
  {
    var dir, rest := todo[0].dir, Pending(cfg, base, todo[1..]);
    var scan := Scan(dir, listing.entries, listing.readFails);
    var own := PendingBy(cfg, base, scan);
    CausedOne(base, Opened(dir.path));
    PendingFirst(cfg, base, scan, todo[1..]);
    PendingOne(cfg, base, scan);
    assert Pending(cfg, base, todo) == rest && Pending(cfg, base, []) == [];
    assert dir.path == base ==> OwnEvents(cfg, dir) == [Opened(base)] + own;
    assert dir.path != base ==> own == [];
    hide Pending, PendingBy, OwnEvents, Caused;
    Reassociate([Opened(base)], own, rest);
    assert [] + ([] + rest) + [] == rest;
  }

  lemma ScanShifts(cfg: Config, capacity: nat, base: bytes, s: State, c: Choice, todo: seq<Action>)
    requires todo != [] && todo[0].Scan? && NamedTodo(todo)
    ensures Shifts(cfg, base, Busy(todo), Perform(cfg, capacity, s, c, todo))
  {
    var dir, entries, readFails, rest := todo[0].dir, todo[0].entries, todo[0].readFails, todo[1..];
    var failure := if readFails then [Emit(ReadFailed(dir.path))] else [];
    var more := if entries == [] then failure + rest
                else EntryPlan(Examine(cfg, dir, entries[0])) + ([Scan(dir, entries[1..], readFails)] + rest);
    var m := if s.visitFailed then Move(Nothing, Busy([]), todo) else Move(Nothing, Busy(more), []);
    assert Perform(cfg, capacity, s, c, todo) == m;
    PendingRound(cfg, base, todo);
    assert Pending(cfg, base, []) == [];
    hide Perform, EntryPlan, Examine, Pending;
    SilentShifts(cfg, base, Busy(todo), m);
  }

  /** One round of the entry loop keeps what is pending: the entry's events come before those of the entries behind it. */
  lemma PendingRound(cfg: Config, base: bytes, todo: seq<Action>)
    requires todo != [] && todo[0].Scan? && NamedTodo(todo)
    ensures var dir, entries, readFails := todo[0].dir, todo[0].entries, todo[0].readFails;
            var failure := if readFails then [Emit(ReadFailed(dir.path))] else [];
            var more := if entries == [] then failure + todo[1..]
                        else EntryPlan(Examine(cfg, dir, entries[0])) + ([Scan(dir, entries[1..], readFails)] + todo[1..]);
            Pending(cfg, base, more) == Pending(cfg, base, todo)
  {
    var dir, entries, readFails, rest := todo[0].dir, todo[0].entries, todo[0].readFails, todo[1..];
    if entries == [] {
      PendingOne(cfg, base, Emit(ReadFailed(dir.path)));
      PendingConcat(cfg, base, if readFails then [Emit(ReadFailed(dir.path))] else [], rest);
    } else {
      assert todo[0] in todo && entries[0] in entries;
      PendingOfScan(cfg, base, dir, entries, readFails, rest);
    }
  }

  lemma PendingOfScan(cfg: Config, base: bytes, dir: Dir, entries: seq<Entry>, readFails: bool, rest: seq<Action>)
    requires entries != [] && PathJoin.IsComponent(entries[0].name)
    ensures Pending(cfg, base, EntryPlan(Examine(cfg, dir, entries[0])) + ([Scan(dir, entries[1..], readFails)] + rest))
         == (if dir.path == base then Listed(cfg, dir, entries, readFails) else []) + Pending(cfg, base, rest)
  {
    var x, scan := Examine(cfg, dir, entries[0]), Scan(dir, entries[1..], readFails);
    var own, tail := if base == dir.path then x.events else [], PendingBy(cfg, base, scan);
    PendingOfEntry(cfg, base, dir, entries[0]);
    PendingOne(cfg, base, scan);
    assert (if dir.path == base then Listed(cfg, dir, entries, readFails) else []) == own + tail;
    hide Pending, PendingBy, EntryPlan, Examine, Listed;
    PendingConcat(cfg, base, EntryPlan(x), [scan] + rest);
    PendingFirst(cfg, base, scan, rest);
    Reassociate(own, tail, Pending(cfg, base, rest));
  }

  lemma Reassociate(a: seq<Event>, b: seq<Event>, c: seq<Event>)
    ensures a + (b + c) == (a + b) + c
  {
  }

  lemma EmitShifts(cfg: Config, capacity: nat, base: bytes, s: State, c: Choice, todo: seq<Action>)
    requires todo != [] && todo[0].Emit? && !todo[0].event.Opened? && !todo[0].event.OpenFailed?
    ensures Shifts(cfg, base, Busy(todo), Perform(cfg, capacity, s, c, todo))
  {
    hide Shifts;
    if Rejects(cfg, todo[0].event) {
      RejectedShifts(cfg, base, todo, Move(Report(todo[0].event), Busy([Raise]), todo[1..]));
    } else {
      AcceptedShifts(cfg, base, todo, Move(Report(todo[0].event), Busy(todo[1..]), []));
    }
  }

  lemma ReportedNow(cfg: Config, base: bytes, todo: seq<Action>)
    requires todo != [] && todo[0].Emit?
    ensures Pending(cfg, base, todo) == Caused(base, [todo[0].event]) + Pending(cfg, base, todo[1..])
  {
    CausedOne(base, todo[0].event);
  }

  lemma AcceptedShifts(cfg: Config, base: bytes, todo: seq<Action>, m: Move)
    requires todo != [] && todo[0].Emit? && !todo[0].event.Opened? && !todo[0].event.OpenFailed?
    requires m == Move(Report(todo[0].event), Busy(todo[1..]), [])
    ensures Shifts(cfg, base, Busy(todo), m)
  {
    var now, rest := Caused(base, [todo[0].event]), Pending(cfg, base, todo[1..]);
    ReportedNow(cfg, base, todo);
    assert PendingAt(cfg, base, m.next) == rest && PendingAt(cfg, base, Busy(todo)) == now + rest && Pending(cfg, base, []) == [];
    assert Reported(m.op) == [todo[0].event];
    hide Pending, PendingAt, PendingBy, Caused, Belongs, Reported;
    assert now + rest + [] == now + rest;
  }

  lemma RejectedShifts(cfg: Config, base: bytes, todo: seq<Action>, m: Move)
    requires todo != [] && todo[0].Emit? && !todo[0].event.Opened? && !todo[0].event.OpenFailed?
    requires m == Move(Report(todo[0].event), Busy([Raise]), todo[1..])
    ensures Shifts(cfg, base, Busy(todo), m)
  {
    var now, rest := Caused(base, [todo[0].event]), Pending(cfg, base, todo[1..]);
    ReportedNow(cfg, base, todo);
    PendingOne(cfg, base, Raise);
    assert PendingAt(cfg, base, m.next) == [] && PendingAt(cfg, base, Busy(todo)) == now + rest;
    assert Reported(m.op) == [todo[0].event];
    hide Pending, PendingAt, PendingBy, Caused, Belongs, Reported;
    assert now + [] + rest == now + rest;
  }

  lemma HandOffShifts(cfg: Config, capacity: nat, base: bytes, s: State, c: Choice, todo: seq<Action>)
    requires todo != [] && (todo[0].Announce? || todo[0].Push? || todo[0].Retract?)
    ensures Shifts(cfg, base, Busy(todo), Perform(cfg, capacity, s, c, todo))
  {
    var dir, rest := todo[0].dir, todo[1..];
    var next := match todo[0] case Announce(_) => Push(dir) case Push(_) => Retract(dir) case _ => Inline(dir);
    PendingFirst(cfg, base, next, rest);
    PendingOne(cfg, base, next);
    var m := Perform(cfg, capacity, s, c, todo);
    assert m.next == Busy([next] + rest) || m.next == Busy(rest);
    assert Pending(cfg, base, todo) == Pending(cfg, base, rest) && Pending(cfg, base, []) == [] && m.dropped == [];
    assert Reported(m.op) == [];
    hide Pending, Perform;
    SilentShifts(cfg, base, Busy(todo), m);
  }

  lemma PendingFresh(cfg: Config, base: bytes, dir: Dir, rest: seq<Action>)
    ensures Pending(cfg, base, [Check, Open(dir)] + rest) == Pending(cfg, base, rest)
  {
    PendingFirst(cfg, base, Open(dir), rest);
    PendingOne(cfg, base, Open(dir));
    PendingFirst(cfg, base, Check, [Open(dir)] + rest);
    PendingOne(cfg, base, Check);
    assert [Check, Open(dir)] + rest == [Check] + ([Open(dir)] + rest);
  }

  lemma InlineShifts(cfg: Config, capacity: nat, base: bytes, s: State, c: Choice, todo: seq<Action>)
    requires todo != [] && todo[0].Inline?
    ensures Shifts(cfg, base, Busy(todo), Perform(cfg, capacity, s, c, todo))
  {
    var dir, rest := todo[0].dir, todo[1..];
    PendingFresh(cfg, base, dir, rest);
    PendingOne(cfg, base, Open(dir));
    CausedOne(base, ReaderFailed(dir.path));
    assert Pending(cfg, base, todo) == Pending(cfg, base, rest) && Pending(cfg, base, []) == [];
    var m := Perform(cfg, capacity, s, c, todo);
    assert m == if c.allocOk then Move(Nothing, Busy([Check, Open(dir)] + rest), [])
                else Move(ReportNoReader(dir.path), Busy(rest), [Open(dir)]);
    hide Pending, Perform;
    if c.allocOk {
      SilentShifts(cfg, base, Busy(todo), m);
    } else {
      assert [] + Pending(cfg, base, rest) + [] == Pending(cfg, base, rest);
    }
  }

  lemma BusyShifts(cfg: Config, capacity: nat, base: bytes, s: State, c: Choice, todo: seq<Action>)
    requires NamedTodo(todo) && WalkOrder.EmitsNoOpening(todo)
    ensures Shifts(cfg, base, Busy(todo), Perform(cfg, capacity, s, c, todo))
  {
    if todo != [] {
      assert todo[0] in todo;
      match todo[0]
      case Scan(_, _, _) => ScanShifts(cfg, capacity, base, s, c, todo);
      case Open(_) => OpenShifts(cfg, capacity, base, s, c, todo);
      case Emit(_) => EmitShifts(cfg, capacity, base, s, c, todo);
      case Inline(_) => InlineShifts(cfg, capacity, base, s, c, todo);
      case Check => SilentShifts(cfg, base, Busy(todo), Perform(cfg, capacity, s, c, todo));
      case Raise => SilentShifts(cfg, base, Busy(todo), Perform(cfg, capacity, s, c, todo));
      case _ => HandOffShifts(cfg, capacity, base, s, c, todo);
    }
  }

  lemma PopShifts(cfg: Config, capacity: nat, base: bytes, s: State, c: Choice)
    ensures Shifts(cfg, base, Popping, Decide(cfg, capacity, s, c, Popping))
  {
    assert Pending(cfg, base, []) == [];
    if c.popAt.Some? && c.popAt.value < |s.queue| {
      var dir := s.queue[c.popAt.value];
      PendingFresh(cfg, base, dir, []);
      assert [Check, Open(dir)] + [] == [Check, Open(dir)];
      SilentShifts(cfg, base, Popping, Move(Dequeue(c.popAt.value), Busy([Check, Open(dir)]), []));
    } else {
      SilentShifts(cfg, base, Popping, Move(Nothing, Counting, []));
    }
  }

  lemma LoopShifts(cfg: Config, capacity: nat, base: bytes, s: State, c: Choice, w: Worker)
    requires !w.Busy? && !w.Popping?
    ensures Shifts(cfg, base, w, Decide(cfg, capacity, s, c, w))
  {
    assert Pending(cfg, base, []) == [];
    var m := Decide(cfg, capacity, s, c, w);
    assert !m.next.Busy? && m.dropped == [] && !m.op.Report?;
    CausedOne(base, ReaderFailed(cfg.root));
    assert Caused(base, Reported(m.op)) == [];
  }

  lemma DecideShifts(cfg: Config, capacity: nat, base: bytes, s: State, c: Choice, w: Worker)
    requires w.Busy? ==> NamedTodo(w.todo) && WalkOrder.EmitsNoOpening(w.todo)
    ensures Shifts(cfg, base, w, Decide(cfg, capacity, s, c, w))
  {
    hide Shifts;
    match w
    case Popping => PopShifts(cfg, capacity, base, s, c);
    case Busy(todo) => BusyShifts(cfg, capacity, base, s, c, todo);
    case _ => LoopShifts(cfg, capacity, base, s, c, w);
  }

  lemma DecideStaysNamed(cfg: Config, capacity: nat, s: State, c: Choice, w: Worker)
    requires WellNamedFilesystem(cfg) && (w.Busy? ==> NamedTodo(w.todo))
    ensures var next := Decide(cfg, capacity, s, c, w).next; next.Busy? ==> NamedTodo(next.todo)
  {
    if w.Busy? && w.todo != [] && w.todo[0].Scan? && w.todo[0].entries != [] {
      WalkOrder.EmitAllIn(Examine(cfg, w.todo[0].dir, w.todo[0].entries[0]).events);
      assert w.todo[0] in w.todo;
    }
  }

  // ---------- what is given up ----------

  lemma {:induction false} ListedIsTraced(cfg: Config, dir: Dir, entries: seq<Entry>, readFails: bool)
    ensures Listed(cfg, dir, entries, readFails) != [] ==> ScanTrace(cfg, dir, entries, readFails) != []
    decreases |entries|
  {
    if entries != [] {
      ListedIsTraced(cfg, dir, entries[1..], readFails);
    }
  }

  /** Where events of a directory are pending, reference events are owed. */
  lemma {:induction false} PendingIsOwed(cfg: Config, base: bytes, todo: seq<Action>)
    ensures Owed(cfg, todo) == multiset{} ==> Pending(cfg, base, todo) == []
  {
    if todo != [] {
      PendingIsOwed(cfg, base, todo[1..]);
      if todo[0].Scan? {
        ListedIsTraced(cfg, todo[0].dir, todo[0].entries, todo[0].readFails);
        SomethingOwed(ScanTrace(cfg, todo[0].dir, todo[0].entries, todo[0].readFails), Owed(cfg, todo[1..]));
      }
      if todo[0].Emit? {
        assert Owed(cfg, todo)[todo[0].event] > 0;
      }
      assert Owed(cfg, todo) == multiset{} ==> Owed(cfg, todo[1..]) == multiset{} by {
        if ev :| ev in Owed(cfg, todo[1..]) {
          assert Owed(cfg, todo)[ev] > 0;
        }
      }
    }
  }

  lemma SomethingOwed(trace: seq<Event>, more: multiset<Event>)
    ensures trace != [] ==> multiset(trace) + more != multiset{}
  {
    if trace != [] {
      assert trace[0] in multiset(trace);
      assert (multiset(trace) + more)[trace[0]] > 0;
    }
  }

  // ---------- the whole state ----------

  ghost predicate NothingPending(cfg: Config, base: bytes, workers: seq<Worker>, but: int) {
    forall j :: 0 <= j < |workers| && j != but ==> PendingAt(cfg, base, workers[j]) == []
  }

  /** `base` has not been opened. */
  ghost predicate Untouched(cfg: Config, base: bytes, s: State) {
    Caused(base, s.log) == [] && NothingPending(cfg, base, s.workers, -1)
  }

  /**
   `base` has been opened, as `dir`, and worker `h` is the only one that may still have events of it pending.
   What happened and what is pending is the start of its own events, and all of them if nothing was given up.
   */
  ghost predicate UnderWay(cfg: Config, base: bytes, s: State, dir: Dir, h: nat) {
    && dir.path == base && h < |s.workers|
    && NothingPending(cfg, base, s.workers, h)
    && Count(cfg, Attempt(base), s.log) >= 1
    && Caused(base, s.log) + PendingAt(cfg, base, s.workers[h]) <= OwnEvents(cfg, dir)
    && (s.lost == multiset{} ==> Caused(base, s.log) + PendingAt(cfg, base, s.workers[h]) == OwnEvents(cfg, dir))
  }

  ghost predicate InListingOrder(cfg: Config, base: bytes, s: State) {
    Untouched(cfg, base, s) || exists dir: Dir, h: nat :: UnderWay(cfg, base, s, dir, h)
  }

  ghost predicate WorkersNamed(s: State) {
    forall w :: w in s.workers && w.Busy? ==> NamedTodo(w.todo) && WalkOrder.EmitsNoOpening(w.todo)
  }

  lemma LostGrows(cfg: Config, base: bytes, lost: multiset<Event>, dropped: seq<Action>)
    ensures lost + Owed(cfg, dropped) == multiset{} ==> lost == multiset{} && Pending(cfg, base, dropped) == []
  {
    PendingIsOwed(cfg, base, dropped);
    if ev :| ev in lost {
      assert (lost + Owed(cfg, dropped))[ev] > 0;
    }
    if ev :| ev in Owed(cfg, dropped) {
      assert (lost + Owed(cfg, dropped))[ev] > 0;
    }
  }

  lemma OpeningStarts(cfg: Config, base: bytes, s: State, i: nat, m: Move)
    requires i < |s.workers| && Shifts(cfg, base, s.workers[i], m) && Opens(base, m)
    requires Untouched(cfg, base, s) && s.lost == s.lost + Owed(cfg, m.dropped)
    ensures InListingOrder(cfg, base, Apply(cfg, s, i, m))
  {
    hide Pending, OwnEvents, Owed;
    var s' := Apply(cfg, s, i, m);
    CausedAppend(base, s.log, Reported(m.op));
    CountConcat(cfg, Attempt(base), s.log, Reported(m.op));
    CountOne(cfg, Attempt(base), Reported(m.op)[0]);
    var dir: Dir :| dir.path == base && m.dropped == []
      && Caused(base, Reported(m.op)) + PendingAt(cfg, base, m.next) == OwnEvents(cfg, dir) + PendingAt(cfg, base, s.workers[i]);
    assert UnderWay(cfg, base, s', dir, i);
  }

  lemma UntouchedStays(cfg: Config, base: bytes, s: State, i: nat, m: Move)
    requires i < |s.workers| && Shifts(cfg, base, s.workers[i], m) && !Opens(base, m)
    requires Untouched(cfg, base, s)
    ensures Untouched(cfg, base, Apply(cfg, s, i, m))
  {
    hide Pending, OwnEvents, Owed;
    CausedAppend(base, s.log, Reported(m.op));
    var now, after, dropped := Caused(base, Reported(m.op)), PendingAt(cfg, base, m.next), Pending(cfg, base, m.dropped);
    assert now + after + dropped == [];
    assert |now + after + dropped| == |now| + |after| + |dropped|;
  }

  lemma UnderWayStays(cfg: Config, base: bytes, s: State, i: nat, m: Move, dir: Dir, h: nat)
    requires i < |s.workers| && Shifts(cfg, base, s.workers[i], m) && !Opens(base, m)
    requires UnderWay(cfg, base, s, dir, h)
    ensures UnderWay(cfg, base, Apply(cfg, s, i, m), dir, h)
  {
    hide Pending, PendingAt, OwnEvents, Owed, Belongs;
    var s' := Apply(cfg, s, i, m);
    CausedAppend(base, s.log, Reported(m.op));
    CountConcat(cfg, Attempt(base), s.log, Reported(m.op));
    LostGrows(cfg, base, s.lost, m.dropped);
    var now, after, dropped := Caused(base, Reported(m.op)), PendingAt(cfg, base, m.next), Pending(cfg, base, m.dropped);
    var pending := PendingAt(cfg, base, s.workers[h]);
    hide Caused;
    if i == h {
      ShiftedPrefix(Caused(base, s.log), now, after, dropped, OwnEvents(cfg, dir));
    } else {
      assert |now + after + dropped| == |now| + |after| + |dropped|;
      assert now == after == dropped == [];
      assert Caused(base, s.log) + [] == Caused(base, s.log);
      assert s'.workers[h] == s.workers[h];
    }
  }

  lemma ShiftedPrefix(done: seq<Event>, now: seq<Event>, after: seq<Event>, dropped: seq<Event>, own: seq<Event>)
    requires done + (now + after + dropped) <= own
    ensures (done + now) + after <= own
    ensures dropped == [] ==> done + (now + after + dropped) == (done + now) + after
  {
    assert done + (now + after + dropped) == ((done + now) + after) + dropped;
  }

  lemma StepInOrder(cfg: Config, capacity: nat, base: bytes, s: State, c: Choice)
    requires WellNamedFilesystem(cfg) && WorkersNamed(s) && InListingOrder(cfg, base, s)
    requires Count(cfg, Attempt(base), Step(cfg, capacity, s, c).log) <= 1
    ensures WorkersNamed(Step(cfg, capacity, s, c)) && InListingOrder(cfg, base, Step(cfg, capacity, s, c))
  {
    if c.worker < |s.workers| {
      var w := s.workers[c.worker];
      assert w in s.workers;
      var m := Decide(cfg, capacity, s, c, w);
      DecideShifts(cfg, capacity, base, s, c, w);
      DecideStaysNamed(cfg, capacity, s, c, w);
      WalkOrder.DecideEmitsNoOpening(cfg, capacity, s, c, w);
      ApplyInOrder(cfg, base, s, c.worker, m);
    }
  }

  lemma ApplyInOrder(cfg: Config, base: bytes, s: State, i: nat, m: Move)
    requires i < |s.workers| && Shifts(cfg, base, s.workers[i], m) && InListingOrder(cfg, base, s)
    requires Count(cfg, Attempt(base), Apply(cfg, s, i, m).log) <= 1
    ensures InListingOrder(cfg, base, Apply(cfg, s, i, m))
  {
    hide Shifts, Untouched, UnderWay, Owed, Apply;
    if Untouched(cfg, base, s) {
      if Opens(base, m) {
        OpeningDropsNothing(cfg, base, s, i, m);
        OpeningStarts(cfg, base, s, i, m);
      } else {
        UntouchedStays(cfg, base, s, i, m);
      }
    } else {
      var dir: Dir, h: nat :| UnderWay(cfg, base, s, dir, h);
      OpenedOnlyOnce(cfg, base, s, i, m, dir, h);
      UnderWayStays(cfg, base, s, i, m, dir, h);
    }
  }

  lemma OpeningDropsNothing(cfg: Config, base: bytes, s: State, i: nat, m: Move)
    requires i < |s.workers| && Shifts(cfg, base, s.workers[i], m) && Opens(base, m)
    ensures s.lost == s.lost + Owed(cfg, m.dropped)
  {
    assert m.dropped == [];
  }

  lemma OpenedOnlyOnce(cfg: Config, base: bytes, s: State, i: nat, m: Move, dir: Dir, h: nat)
    requires i < |s.workers| && UnderWay(cfg, base, s, dir, h)
    requires Count(cfg, Attempt(base), Apply(cfg, s, i, m).log) <= 1
    ensures !Opens(base, m)
  {
    if Opens(base, m) {
      CountConcat(cfg, Attempt(base), s.log, Reported(m.op));
      CountOne(cfg, Attempt(base), Reported(m.op)[0]);
    }
  }

  lemma {:induction false} RunInOrder(cfg: Config, capacity: nat, workers: nat, schedule: seq<Choice>, base: bytes)
    requires cfg.root != [] && capacity >= 1 && WellNamedFilesystem(cfg)
    ensures var s := Run(cfg, capacity, Initial(cfg, workers), schedule);
            WorkersNamed(s) && InListingOrder(cfg, base, s)
  {
    if schedule == [] {
      assert Untouched(cfg, base, Initial(cfg, workers));
    } else {
      var init := schedule[..|schedule| - 1];
      RunInOrder(cfg, capacity, workers, init, base);
      RunMeetsOnce(cfg, capacity, workers, schedule, Attempt(base));
      StepInOrder(cfg, capacity, base, Run(cfg, capacity, Initial(cfg, workers), init), schedule[|schedule| - 1]);
    }
  }

  // ---------- the results ----------

  /**
   In every state of every run the events that a directory caused are the first so many of its own events, in
   the order of its listing.
   */
  lemma ListingOrderIsKept(cfg: Config, capacity: nat, workers: nat, schedule: seq<Choice>, base: bytes)
    requires cfg.root != [] && capacity >= 1 && WellNamedFilesystem(cfg)
    ensures var log := Run(cfg, capacity, Initial(cfg, workers), schedule).log;
            Caused(base, log) == [] || exists dir: Dir :: dir.path == base && Caused(base, log) <= OwnEvents(cfg, dir)
  {
    var s := Run(cfg, capacity, Initial(cfg, workers), schedule);
    RunInOrder(cfg, capacity, workers, schedule, base);
    if !Untouched(cfg, base, s) {
      var dir: Dir, h: nat :| UnderWay(cfg, base, s, dir, h);
      assert dir.path == base && Caused(base, s.log) <= OwnEvents(cfg, dir);
    }
  }

  /** A complete run has done everything that each directory it opened causes, in the order of the listing. */
  lemma CompleteRunListsAll(cfg: Config, capacity: nat, workers: nat, schedule: seq<Choice>, base: bytes)
    requires cfg.root != [] && capacity >= 1 && workers >= 1 && WellNamedFilesystem(cfg)
    requires var s := Run(cfg, capacity, Initial(cfg, workers), schedule);
             AllExited(s) && Undisturbed(s) && !s.visitFailed
    requires Reachable(cfg, At(cfg.root, 0), base)
    ensures exists dir: Dir :: dir.path == base
              && Caused(base, Run(cfg, capacity, Initial(cfg, workers), schedule).log) == OwnEvents(cfg, dir)
  {
    var s := Run(cfg, capacity, Initial(cfg, workers), schedule);
    RunInvariant(cfg, capacity, workers, schedule);
    SomebodyDrained(cfg, s);
    RunInOrder(cfg, capacity, workers, schedule, base);
    CompleteRunAttemptsEachOnce(cfg, capacity, workers, schedule, base);
    if Untouched(cfg, base, s) {
      NothingCausedNothingAttempted(cfg, base, s.log);
      assert false;
    }
    var dir: Dir, h: nat :| UnderWay(cfg, base, s, dir, h);
    assert s.workers[h] in s.workers && !s.workers[h].Busy?;
    assert Caused(base, s.log) + [] == Caused(base, s.log);
  }

  lemma {:induction false} NothingCausedNothingAttempted(cfg: Config, base: bytes, log: seq<Event>)
    ensures Caused(base, log) == [] ==> Count(cfg, Attempt(base), log) == 0
  {
    if log != [] {
      NothingCausedNothingAttempted(cfg, base, log[..|log| - 1]);
    }
  }
}
