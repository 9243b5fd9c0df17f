/**
 Cause before effect in the parallel walk (src/walk/bc_io_walk_parallel.c:82-246): in every
 run a directory is opened only after the visit that accepted it.
 */
module WalkOrder {
  import opened WalkReference
  import opened WalkProtocol

  // ---------- accepted before opened ----------

  /** The visit of this directory has been accepted, and the walk is to descend into it. */
  ghost predicate Accepted(cfg: Config, log: seq<Event>, dir: Dir) {
    exists e :: FolderVisited(e) in log && dir == At(e.path, e.depth) && cfg.visit(e) && cfg.shouldDescend(e)
  }

  ghost predicate Due(cfg: Config, log: seq<Event>, dir: Dir) {
    (cfg.root != [] && dir == At(cfg.root, 0)) || Accepted(cfg, log, dir)
  }

  /** Every directory that the actions name is due by the time its action comes up. */
  ghost predicate Grounded(cfg: Config, log: seq<Event>, todo: seq<Action>)
    decreases |todo|
  {
    todo == [] ||
    match todo[0]
    case Emit(ev) => Rejects(cfg, ev) || Grounded(cfg, log + [ev], todo[1..])
    case Open(dir) => Due(cfg, log, dir) && Grounded(cfg, log, todo[1..])
    case Announce(dir) => Due(cfg, log, dir) && Grounded(cfg, log, todo[1..])
    case Push(dir) => Due(cfg, log, dir) && Grounded(cfg, log, todo[1..])
    case Retract(dir) => Due(cfg, log, dir) && Grounded(cfg, log, todo[1..])
    case Inline(dir) => Due(cfg, log, dir) && Grounded(cfg, log, todo[1..])
    case _ => Grounded(cfg, log, todo[1..])
  }

  lemma {:induction false} GroundedGrows(cfg: Config, log: seq<Event>, log': seq<Event>, todo: seq<Action>)
    requires Grounded(cfg, log, todo) && forall ev :: ev in log ==> ev in log'
    ensures Grounded(cfg, log', todo)
    decreases |todo|
  {
    if todo != [] {
      match todo[0]
      case Emit(ev) =>
        if !Rejects(cfg, ev) {
          GroundedGrows(cfg, log + [ev], log' + [ev], todo[1..]);
        }
      case _ => GroundedGrows(cfg, log, log', todo[1..]);
    }
  }

  lemma GroundedFirst(cfg: Config, log: seq<Event>, action: Action, rest: seq<Action>)
    requires Grounded(cfg, log, rest) && !action.Emit?
    requires action.Check? || action.Raise? || action.Scan? || Due(cfg, log, action.dir)
    ensures Grounded(cfg, log, [action] + rest)
  {
    assert ([action] + rest)[1..] == rest;
  }

  /** What an entry gives rise to: the subdirectory is announced right behind its visit. */
  lemma EntryIsGrounded(cfg: Config, log: seq<Event>, dir: Dir, entry: Entry, rest: seq<Action>)
    requires Grounded(cfg, log, rest)
    ensures Grounded(cfg, log, EntryPlan(Examine(cfg, dir, entry)) + rest)
  {
    var x := Examine(cfg, dir, entry);
    var plan := EntryPlan(x);
    if x.events == [] {
      assert plan + rest == rest;
    } else {
      var ev := x.events[0];
      var tail := (if x.descend.Some? then [Announce(x.descend.value)] else []) + rest;
      assert x.events[1..] == [];
      assert EmitAll(x.events) == [Emit(ev)] + EmitAll([]);
      assert plan + rest == [Emit(ev)] + tail && ([Emit(ev)] + tail)[1..] == tail;
      if !Rejects(cfg, ev) {
        GroundedGrows(cfg, log, log + [ev], rest);
        if x.descend.Some? {
          assert ev.FolderVisited? && ev in log + [ev];
          assert Accepted(cfg, log + [ev], x.descend.value);
          GroundedFirst(cfg, log + [ev], Announce(x.descend.value), rest);
        } else {
          assert tail == rest;
        }
      }
    }
  }

  ghost predicate GroundedWorker(cfg: Config, log: seq<Event>, w: Worker) {
    w.Busy? ==> Grounded(cfg, log, w.todo)
  }

  /** What a move must satisfy: it opens and queues only what is due, and leaves a grounded list. */
  ghost predicate MovesOnGround(cfg: Config, log: seq<Event>, m: Move) {
    && GroundedWorker(cfg, log + Reported(m.op), m.next)
    && (m.op.Enqueue? ==> Due(cfg, log, m.op.dir))
    && (m.op.Report? && (m.op.event.Opened? || m.op.event.OpenFailed?) ==>
          exists d: Dir :: d.path == m.op.event.path && Due(cfg, log, d))
  }

  /** Only openings report a directory as opened. */
  ghost predicate EmitsNoOpening(todo: seq<Action>) {
    forall a :: a in todo && a.Emit? ==> !a.event.Opened? && !a.event.OpenFailed?
  }

  lemma ScanOnGround(cfg: Config, capacity: nat, s: State, c: Choice, todo: seq<Action>)
    requires todo != [] && todo[0].Scan? && Grounded(cfg, s.log, todo)
    ensures MovesOnGround(cfg, s.log, Perform(cfg, capacity, s, c, todo))
  {
    var dir, entries, readFails, rest := todo[0].dir, todo[0].entries, todo[0].readFails, todo[1..];
    assert s.log + [] == s.log;
    if entries != [] {
      GroundedFirst(cfg, s.log, Scan(dir, entries[1..], readFails), rest);
      EntryIsGrounded(cfg, s.log, dir, entries[0], [Scan(dir, entries[1..], readFails)] + rest);
    } else if readFails {
      var failure := [Emit(ReadFailed(dir.path))];
      GroundedGrows(cfg, s.log, s.log + [ReadFailed(dir.path)], rest);
      assert (failure + rest)[1..] == rest;
    } else {
      assert [] + rest == rest;
    }
  }

  lemma ReportOnGround(cfg: Config, capacity: nat, s: State, c: Choice, todo: seq<Action>)
    requires todo != [] && (todo[0].Open? || todo[0].Emit?) && Grounded(cfg, s.log, todo) && EmitsNoOpening(todo)
    ensures MovesOnGround(cfg, s.log, Perform(cfg, capacity, s, c, todo))
  {
    var rest := todo[1..];
    assert todo[0] in todo;
    match todo[0]
    case Emit(ev) =>
      assert Grounded(cfg, s.log + [ev], [Raise]);
    case Open(dir) =>
      match cfg.open(dir.path)
      case None => GroundedGrows(cfg, s.log, s.log + [OpenFailed(dir.path)], rest);
      case Some(listing) =>
        GroundedGrows(cfg, s.log, s.log + [Opened(dir.path)], rest);
        GroundedFirst(cfg, s.log + [Opened(dir.path)], Scan(dir, listing.entries, listing.readFails), rest);
  }

  lemma HandOffOnGround(cfg: Config, capacity: nat, s: State, c: Choice, todo: seq<Action>)
    requires todo != [] && Grounded(cfg, s.log, todo)
    requires todo[0].Announce? || todo[0].Push? || todo[0].Retract? || todo[0].Inline?
    ensures MovesOnGround(cfg, s.log, Perform(cfg, capacity, s, c, todo))
  {
    var dir, rest := todo[0].dir, todo[1..];
    assert s.log + [] == s.log;
    match todo[0]
    case Announce(_) => GroundedFirst(cfg, s.log, Push(dir), rest);
    case Push(_) => GroundedFirst(cfg, s.log, Retract(dir), rest);
    case Retract(_) => GroundedFirst(cfg, s.log, Inline(dir), rest);
    case Inline(_) =>
      GroundedFirst(cfg, s.log, Open(dir), rest);
      GroundedFirst(cfg, s.log, Check, [Open(dir)] + rest);
      assert [Check, Open(dir)] + rest == [Check] + ([Open(dir)] + rest);
      GroundedGrows(cfg, s.log, s.log + [ReaderFailed(dir.path)], rest);
  }

  lemma DecideOnGround(cfg: Config, capacity: nat, s: State, c: Choice, w: Worker)
    requires GroundedWorker(cfg, s.log, w) && (w.Busy? ==> EmitsNoOpening(w.todo))
    requires forall d :: d in s.queue ==> Due(cfg, s.log, d)
    ensures MovesOnGround(cfg, s.log, Decide(cfg, capacity, s, c, w))
  {
    assert s.log + [] == s.log;
    match w
    case Popping =>
      if c.popAt.Some? && c.popAt.value < |s.queue| {
        var dir := s.queue[c.popAt.value];
        GroundedFirst(cfg, s.log, Open(dir), []);
        GroundedFirst(cfg, s.log, Check, [Open(dir)] + []);
        assert [Check, Open(dir)] == [Check] + ([Open(dir)] + []);
      }
    case Busy(todo) =>
      if todo != [] {
        match todo[0]
        case Scan(_, _, _) => ScanOnGround(cfg, capacity, s, c, todo);
        case Open(_) => ReportOnGround(cfg, capacity, s, c, todo);
        case Emit(_) => ReportOnGround(cfg, capacity, s, c, todo);
        case Check =>
        case Raise =>
        case _ => HandOffOnGround(cfg, capacity, s, c, todo);
      }
    case _ =>
  }

  lemma {:induction false} EmitAllIn(events: seq<Event>)
    ensures forall a :: a in EmitAll(events) ==> a.Emit? && a.event in events
  {
    if events != [] {
      EmitAllIn(events[1..]);
    }
  }

  lemma EntryEmitsNoOpening(cfg: Config, dir: Dir, entry: Entry)
    ensures EmitsNoOpening(EntryPlan(Examine(cfg, dir, entry)))
  {
    EmitAllIn(Examine(cfg, dir, entry).events);
  }

  lemma DecideEmitsNoOpening(cfg: Config, capacity: nat, s: State, c: Choice, w: Worker)
    requires w.Busy? ==> EmitsNoOpening(w.todo)
    ensures var next := Decide(cfg, capacity, s, c, w).next; next.Busy? ==> EmitsNoOpening(next.todo)
  {
    if w.Busy? && w.todo != [] && w.todo[0].Scan? && w.todo[0].entries != [] {
      EntryEmitsNoOpening(cfg, w.todo[0].dir, w.todo[0].entries[0]);
    }
  }

  /** Everything opened was the root or had been accepted before. */
  ghost predicate OpensWhatIsDue(cfg: Config, log: seq<Event>) {
    forall i :: 0 <= i < |log| && (log[i].Opened? || log[i].OpenFailed?) ==>
      exists d: Dir :: d.path == log[i].path && Due(cfg, log[..i], d)
  }

  ghost predicate Causal(cfg: Config, s: State) {
    && OpensWhatIsDue(cfg, s.log)
    && (forall d :: d in s.queue ==> Due(cfg, s.log, d))
    && (forall w :: w in s.workers ==> GroundedWorker(cfg, s.log, w) && (w.Busy? ==> EmitsNoOpening(w.todo)))
  }

  lemma DueLater(cfg: Config, log: seq<Event>, more: seq<Event>, dir: Dir)
    requires Due(cfg, log, dir)
    ensures Due(cfg, log + more, dir)
  {
    if Accepted(cfg, log, dir) {
      var e :| FolderVisited(e) in log && dir == At(e.path, e.depth) && cfg.visit(e) && cfg.shouldDescend(e);
      assert FolderVisited(e) in log + more;
    }
  }

  lemma OpensDueAppend(cfg: Config, log: seq<Event>, more: seq<Event>)
    requires OpensWhatIsDue(cfg, log) && |more| <= 1
    requires more != [] && (more[0].Opened? || more[0].OpenFailed?) ==> exists d: Dir :: d.path == more[0].path && Due(cfg, log, d)
    ensures OpensWhatIsDue(cfg, log + more)
  {
    var log' := log + more;
    forall i | 0 <= i < |log'| && (log'[i].Opened? || log'[i].OpenFailed?)
      ensures exists d: Dir :: d.path == log'[i].path && Due(cfg, log'[..i], d)
    {
      if i < |log| {
        assert log'[..i] == log[..i];
      } else {
        assert log'[..i] == log;
      }
    }
  }

  lemma StepCausal(cfg: Config, capacity: nat, s: State, c: Choice)
    requires Causal(cfg, s)
    ensures Causal(cfg, Step(cfg, capacity, s, c))
  {
    if c.worker < |s.workers| {
      var w := s.workers[c.worker];
      assert w in s.workers;
      var m := Decide(cfg, capacity, s, c, w);
      DecideOnGround(cfg, capacity, s, c, w);
      DecideEmitsNoOpening(cfg, capacity, s, c, w);
      ApplyCausal(cfg, s, c.worker, m);
    }
  }

  lemma ApplyCausal(cfg: Config, s: State, i: nat, m: Move)
    requires Causal(cfg, s) && i < |s.workers| && MovesOnGround(cfg, s.log, m)
    requires m.next.Busy? ==> EmitsNoOpening(m.next.todo)
    ensures Causal(cfg, Apply(cfg, s, i, m))
  {
    hide Grounded, Owed, EmitsNoOpening, Due;
    var s' := Apply(cfg, s, i, m);
    OpensDueAppend(cfg, s.log, Reported(m.op));
    forall d | d in s'.queue ensures Due(cfg, s'.log, d) {
      DueLater(cfg, s.log, Reported(m.op), d);
    }
    forall w | w in s'.workers
      ensures GroundedWorker(cfg, s'.log, w) && (w.Busy? ==> EmitsNoOpening(w.todo))
    {
      if w != m.next {
        assert w in s.workers;
        if w.Busy? {
          GroundedGrows(cfg, s.log, s'.log, w.todo);
        }
      }
    }
  }

  lemma {:induction false} RunCausal(cfg: Config, capacity: nat, workers: nat, schedule: seq<Choice>)
    requires cfg.root != []
    ensures Causal(cfg, Run(cfg, capacity, Initial(cfg, workers), schedule))
  {
    if schedule != [] {
      var init := schedule[..|schedule| - 1];
      RunCausal(cfg, capacity, workers, init);
      StepCausal(cfg, capacity, Run(cfg, capacity, Initial(cfg, workers), init), schedule[|schedule| - 1]);
    }
  }

  /**
   In every run, failed or not, every attempt to open a directory other than the root comes after the visit
   callback accepted that directory and the descent check agreed.
   */
  lemma AcceptedBeforeOpened(cfg: Config, capacity: nat, workers: nat, schedule: seq<Choice>, i: nat)
    requires cfg.root != []
    requires var log := Run(cfg, capacity, Initial(cfg, workers), schedule).log;
             i < |log| && (log[i].Opened? || log[i].OpenFailed?) && log[i].path != cfg.root
    ensures var log := Run(cfg, capacity, Initial(cfg, workers), schedule).log;
            exists j :: 0 <= j < i && log[j].FolderVisited? && log[j].entry.path == log[i].path
                        && cfg.visit(log[j].entry) && cfg.shouldDescend(log[j].entry)
  {
    var log := Run(cfg, capacity, Initial(cfg, workers), schedule).log;
    RunCausal(cfg, capacity, workers, schedule);
    var d: Dir :| d.path == log[i].path && Due(cfg, log[..i], d);
    var e :| FolderVisited(e) in log[..i] && d == At(e.path, e.depth) && cfg.visit(e) && cfg.shouldDescend(e);
    var j :| 0 <= j < i && log[..i][j] == FolderVisited(e);
    assert log[j] == FolderVisited(e);
  }
}
