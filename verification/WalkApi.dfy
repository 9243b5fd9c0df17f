/**
 The two entry points, bc_io_walk_sequential and bc_io_walk_parallel: argument checks,
 set-up, the walk itself and the result they report (src/walk/bc_io_walk_sequential.c:216-241,
 src/walk/bc_io_walk_parallel.c:293-356).
 */
module WalkApi {
  import opened Bytes
  import opened WalkReference
  import opened WalkStats
  import opened WalkProtocol
  import opened WalkTheorems
  import opened SequentialWalk
  import opened SequentialResult

  const DEFAULT_QUEUE_CAPACITY: nat := 16384

  /** The caller's arguments; the flags say which of the optional pointers were given. */
  datatype Setup = Setup(
    config: Config,
    rootGiven: bool,
    visitGiven: bool,
    memoryGiven: bool,
    concurrencyGiven: bool,
    queueCapacity: nat)

  predicate Acceptable(setup: Setup) {
    setup.rootGiven && 0 < |setup.config.root| < MAX_PATH_LENGTH && setup.visitGiven && setup.memoryGiven
  }

  // ---------- sequential ----------

  method WalkSequential(setup: Setup, world: World) returns (ok: bool, stats: Option<Stats>, ghost final: Progress)
    ensures !ok && stats == None <==>
              !setup.rootGiven || |setup.config.root| == 0 || |setup.config.root| >= 4096 || !setup.visitGiven || !setup.memoryGiven
    ensures !Acceptable(setup) ==> !ok && stats == None
    ensures Acceptable(setup) ==> final == Final(setup.config, world)
    ensures Acceptable(setup) ==> stats == Some(final.stats) && (ok <==> !final.visitFailed)
    // left alone, the walk succeeds exactly when the callback accepts every visit, and then counts the reference
    ensures Acceptable(setup) && !final.stopSeen && !final.readerMissing ==>
              && (ok <==> forall ev :: ev in Reference(setup.config) && (ev.FileVisited? || ev.FolderVisited?) ==>
                            setup.config.visit(ev.entry))
              && (ok ==> stats == Some(Tally(Reference(setup.config))))
  {
    if !setup.rootGiven || |setup.config.root| == 0 || |setup.config.root| >= MAX_PATH_LENGTH {
      return false, None, Fresh;
    }
    if !setup.visitGiven {
      return false, None, Fresh;
    }
    if !setup.memoryGiven {
      return false, None, Fresh;
    }
    var walker := new Walker(setup.config, world);
    walker.Recurse(At(setup.config.root, 0));
    final := walker.View();
    stats := Some(walker.stats);
    ok := !walker.visitFailed;
    if !final.stopSeen && !final.readerMissing {
      VerdictOfSequentialWalk(setup.config, world);
      if ok {
        UndisturbedWalkIsTheReference(setup.config, world);
      }
    }
  }

  // ---------- parallel ----------

  /** The struct all workers share, updated one atomic operation at a time. */
  class Shared {
    const config: Config
    const capacity: nat
    var queue: seq<Dir>
    var outstanding: int
    var visitFailed: bool
    var stats: Stats
    var workers: seq<Worker>
    ghost var log: seq<Event>
    ghost var lost: multiset<Event>
    ghost var noise: multiset<Event>

    /** The set-up before the workers are dispatched: the root is counted and queued. */
    constructor (config: Config, capacity: nat, workerCount: nat)
      requires config.root != []
      ensures this.config == config && this.capacity == capacity
      ensures View() == Initial(config, workerCount)
    {
      this.config := config;
      this.capacity := capacity;
      queue := [At(config.root, 0)];
      outstanding := 1;
      visitFailed := false;
      stats := ZeroStats;
      workers := seq(workerCount, _ => Starting);
      log, lost, noise := [], multiset{}, multiset{};
    }

    ghost function View(): State
      reads this
    {
      State(queue, outstanding, visitFailed, stats, workers, log, lost, noise)
    }

    /** Counts an event and reports it. */
    method Report(ev: Event)
      modifies this
      ensures View() == old(View()).(stats := Bump(old(stats), ev), log := old(log) + [ev])
    {
      stats := Bump(stats, ev);
      log := log + [ev];
    }

    method ReportNoReader(path: bytes)
      modifies this
      ensures View() == old(View()).(stats := Bump(old(stats), ReaderFailed(path)), log := old(log) + [ReaderFailed(path)],
                                     noise := old(noise) + multiset{ReaderFailed(path)})
    {
      Report(ReaderFailed(path));
      noise := noise + multiset{ReaderFailed(path)};
    }

    /** The queue's push: fails when the queue is full, and may fail otherwise. */
    method Push(dir: Dir, works: bool) returns (pushed: bool)
      modifies this
      ensures pushed <==> works && |old(queue)| < capacity
      ensures View() == if pushed then old(View()).(queue := old(queue) + [dir]) else old(View())
    {
      pushed := works && |queue| < capacity;
      if pushed {
        queue := queue + [dir];
      }
    }

    /** The queue's pop: takes out the entry at some position, or fails. */
    method Pop(at: Option<nat>) returns (popped: Option<Dir>)
      modifies this
      ensures popped == if at.Some? && at.value < |old(queue)| then Some(old(queue)[at.value]) else None
      ensures View() == if popped.Some? then old(View()).(queue := old(queue)[..at.value] + old(queue)[at.value + 1..])
                        else old(View())
    {
      if at.None? || at.value >= |queue| {
        return None;
      }
      popped := Some(queue[at.value]);
      queue := queue[..at.value] + queue[at.value + 1..];
    }

    /** The worker that the choice names is in this state. */
    predicate Is(c: Choice, w: Worker)
      reads this
    {
      c.worker < |workers| && workers[c.worker] == w
    }

    /** Gives up what the actions would have led to. */
    ghost method GiveUp(dropped: seq<Action>)
      modifies this`lost
      ensures View() == old(View()).(lost := old(lost) + Owed(config, dropped))
    {
      lost := lost + Owed(config, dropped);
    }

    method Become(i: nat, w: Worker)
      requires i < |workers|
      modifies this
      ensures View() == old(View()).(workers := old(workers)[i := w])
    {
      workers := workers[i := w];
    }

    // the worker loop

    /** Creates the reader of the worker. */
    method Start(c: Choice)
      requires Is(c, Starting)
      modifies this
      ensures View() == Step(config, capacity, old(View()), c)
    {
      if c.allocOk {
        StepMoves(config, capacity, View(), c, Move(Nothing, Polling, []));
        Become(c.worker, Polling);
      } else {
        StepMoves(config, capacity, View(), c, Move(Op.ReportNoReader(config.root), Abandoning, []));
        ReportNoReader(config.root);
        Become(c.worker, Abandoning);
      }
    }

    /** Without a reader: raises the flag and leaves. */
    method Abandon(c: Choice)
      requires Is(c, Abandoning)
      modifies this
      ensures View() == Step(config, capacity, old(View()), c)
    {
      visitFailed := true;
      Become(c.worker, Exited(NoReader));
    }

    /** Asks whether to stop. */
    method AskStop(c: Choice)
      requires Is(c, Polling)
      modifies this
      ensures View() == Step(config, capacity, old(View()), c)
    {
      Become(c.worker, if c.stop then Exited(Stopped) else Flagging);
    }

    /** Loads the flag. */
    method LoadFlag(c: Choice)
      requires Is(c, Flagging)
      modifies this
      ensures View() == Step(config, capacity, old(View()), c)
    {
      Become(c.worker, if visitFailed then Exited(SawFailure) else Popping);
    }

    /** Takes a directory out of the queue. */
    method Take(c: Choice)
      requires Is(c, Popping)
      modifies this
      ensures View() == Step(config, capacity, old(View()), c)
    {
      ghost var before := View();
      var popped := Pop(c.popAt);
      if popped.Some? {
        StepMoves(config, capacity, before, c, Move(Dequeue(c.popAt.value), Busy([Check, Open(popped.value)]), []));
        Become(c.worker, Busy([Check, Open(popped.value)]));
      } else {
        StepMoves(config, capacity, before, c, Move(Nothing, Counting, []));
        Become(c.worker, Counting);
      }
    }

    /** Loads the count; zero means that the walk is over. */
    method LoadCount(c: Choice)
      requires Is(c, Counting)
      modifies this
      ensures View() == Step(config, capacity, old(View()), c)
    {
      Become(c.worker, if outstanding == 0 then Exited(Drained) else Polling);
    }

    /** Takes the processed directory out of the count. */
    method Finish(c: Choice)
      requires Is(c, Busy([]))
      modifies this
      ensures View() == Step(config, capacity, old(View()), c)
    {
      outstanding := outstanding - 1;
      Become(c.worker, Polling);
    }

    // processing a directory

    /** Loads the flag; when it is up, everything left is given up. */
    method CheckFlag(c: Choice, todo: seq<Action>)
      requires Is(c, Busy(todo)) && todo != [] && todo[0].Check?
      modifies this
      ensures View() == Step(config, capacity, old(View()), c)
    {
      var rest := todo[1..];
      if visitFailed {
        StepMoves(config, capacity, View(), c, Move(Nothing, Busy([]), rest));
        GiveUp(rest);
        Become(c.worker, Busy([]));
      } else {
        StepMoves(config, capacity, View(), c, Move(Nothing, Busy(rest), []));
        Become(c.worker, Busy(rest));
      }
    }

    /** Opens a directory and starts on its entries. */
    method OpenDirectory(c: Choice, todo: seq<Action>)
      requires Is(c, Busy(todo)) && todo != [] && todo[0].Open?
      modifies this
      ensures View() == Step(config, capacity, old(View()), c)
    {
      var dir, rest := todo[0].dir, todo[1..];
      var contents := config.open(dir.path);
      if contents.None? {
        StepMoves(config, capacity, View(), c, Move(Op.Report(OpenFailed(dir.path)), Busy(rest), []));
        Report(OpenFailed(dir.path));
        Become(c.worker, Busy(rest));
      } else {
        var first := Action.Scan(dir, contents.value.entries, contents.value.readFails);
        StepMoves(config, capacity, View(), c, Move(Op.Report(Opened(dir.path)), Busy([first] + rest), []));
        Report(Opened(dir.path));
        Become(c.worker, Busy([first] + rest));
      }
    }

    /** One round of the entry loop up to its first effect: loads the flag and reads the next entry. */
    method ReadEntry(c: Choice, todo: seq<Action>)
      requires Is(c, Busy(todo)) && todo != [] && todo[0].Scan?
      modifies this
      ensures View() == Step(config, capacity, old(View()), c)
    {
      if visitFailed {
        StepMoves(config, capacity, View(), c, Move(Nothing, Busy([]), todo));
        hide Step, Decide, Perform, Owed, DirTrace, Bump;
        GiveUp(todo);
        Become(c.worker, Busy([]));
      } else if todo[0].entries == [] {
        var failure := if todo[0].readFails then [Emit(ReadFailed(todo[0].dir.path))] else [];
        StepMoves(config, capacity, View(), c, Move(Nothing, Busy(failure + todo[1..]), []));
        Become(c.worker, Busy(failure + todo[1..]));
      } else {
        ReadNextEntry(c, todo);
      }
    }

    method ReadNextEntry(c: Choice, todo: seq<Action>)
      requires Is(c, Busy(todo)) && todo != [] && todo[0].Scan? && todo[0].entries != [] && !visitFailed
      modifies this
      ensures View() == Step(config, capacity, old(View()), c)
    {
      var dir, entries := todo[0].dir, todo[0].entries;
      var x := Examine(config, dir, entries[0]);
      var next := EntryPlan(x) + ([Action.Scan(dir, entries[1..], todo[0].readFails)] + todo[1..]);
      StepMoves(config, capacity, View(), c, Move(Nothing, Busy(next), []));
      Become(c.worker, Busy(next));
    }

    /** Counts and reports an event; after a rejected visit the rest is given up. */
    method ReportNext(c: Choice, todo: seq<Action>)
      requires Is(c, Busy(todo)) && todo != [] && todo[0].Emit?
      modifies this
      ensures View() == Step(config, capacity, old(View()), c)
    {
      var ev, rest := todo[0].event, todo[1..];
      ghost var before := View();
      Report(ev);
      if Rejects(config, ev) {
        StepMoves(config, capacity, before, c, Move(Op.Report(ev), Busy([Raise]), rest));
        hide Step, Decide, Perform, Owed, DirTrace, Bump;
        GiveUp(rest);
        Become(c.worker, Busy([Raise]));
      } else {
        StepMoves(config, capacity, before, c, Move(Op.Report(ev), Busy(rest), []));
        hide Step, Decide, Perform, Owed, DirTrace, Bump;
        Become(c.worker, Busy(rest));
      }
    }

    /** Raises the flag. */
    method RaiseFlag(c: Choice, todo: seq<Action>)
      requires Is(c, Busy(todo)) && todo != [] && todo[0].Raise?
      modifies this
      ensures View() == Step(config, capacity, old(View()), c)
    {
      visitFailed := true;
      Become(c.worker, Busy(todo[1..]));
    }

    /** Counts a subdirectory before it is queued. */
    method CountIn(c: Choice, todo: seq<Action>)
      requires Is(c, Busy(todo)) && todo != [] && todo[0].Announce?
      modifies this
      ensures View() == Step(config, capacity, old(View()), c)
    {
      StepMoves(config, capacity, View(), c, Move(Adjust(1), Busy([Action.Push(todo[0].dir)] + todo[1..]), []));
      hide Step, Decide, Perform, Owed, DirTrace, Bump;
      outstanding := outstanding + 1;
      Become(c.worker, Busy([Action.Push(todo[0].dir)] + todo[1..]));
    }

    /** Queues a subdirectory, if the queue takes it. */
    method HandOff(c: Choice, todo: seq<Action>)
      requires Is(c, Busy(todo)) && todo != [] && todo[0].Push?
      modifies this
      ensures View() == Step(config, capacity, old(View()), c)
    {
      var dir, rest := todo[0].dir, todo[1..];
      ghost var before := View();
      var pushed := Push(dir, c.pushOk);
      if pushed {
        StepMoves(config, capacity, before, c, Move(Enqueue(dir), Busy(rest), []));
        Become(c.worker, Busy(rest));
      } else {
        StepMoves(config, capacity, before, c, Move(Nothing, Busy([Retract(dir)] + rest), []));
        Become(c.worker, Busy([Retract(dir)] + rest));
      }
    }

    /** Takes back the count of a subdirectory that was not queued. */
    method RollBack(c: Choice, todo: seq<Action>)
      requires Is(c, Busy(todo)) && todo != [] && todo[0].Retract?
      modifies this
      ensures View() == Step(config, capacity, old(View()), c)
    {
      StepMoves(config, capacity, View(), c, Move(Adjust(-1), Busy([Inline(todo[0].dir)] + todo[1..]), []));
      hide Step, Decide, Perform, Owed, DirTrace, Bump;
      outstanding := outstanding - 1;
      Become(c.worker, Busy([Inline(todo[0].dir)] + todo[1..]));
    }

    /** Reports that no reader could be created for a subdirectory, which is then left out. */
    method SkipForNoReader(c: Choice, todo: seq<Action>)
      requires Is(c, Busy(todo)) && todo != [] && todo[0].Inline? && !c.allocOk
      modifies this
      ensures View() == Step(config, capacity, old(View()), c)
    {
      var dir, rest := todo[0].dir, todo[1..];
      NoReaderStep(config, capacity, View(), c, todo);
      hide Step, Owed, Bump;
      ReportNoReader(dir.path);
      GiveUp([Open(dir)]);
      Become(c.worker, Busy(rest));
    }

    /** Creates a reader for processing a subdirectory here and now. */
    method FallBack(c: Choice, todo: seq<Action>)
      requires Is(c, Busy(todo)) && todo != [] && todo[0].Inline?
      modifies this
      ensures View() == Step(config, capacity, old(View()), c)
    {
      var dir, rest := todo[0].dir, todo[1..];
      if c.allocOk {
        StepMoves(config, capacity, View(), c, Move(Nothing, Busy([Check, Open(dir)] + rest), []));
        hide Step, Decide, Perform, Owed, DirTrace, Bump;
        Become(c.worker, Busy([Check, Open(dir)] + rest));
      } else {
        SkipForNoReader(c, todo);
      }
    }

    /** The next action of a worker that is processing a directory. */
    method Process(c: Choice, todo: seq<Action>)
      requires Is(c, Busy(todo))
      modifies this
      ensures View() == Step(config, capacity, old(View()), c)
    {
      if todo == [] {
        Finish(c);
      } else {
        match todo[0]
        case Check => CheckFlag(c, todo);
        case Open(_) => OpenDirectory(c, todo);
        case Scan(_, _, _) => ReadEntry(c, todo);
        case Emit(_) => ReportNext(c, todo);
        case Raise => RaiseFlag(c, todo);
        case Announce(_) => CountIn(c, todo);
        case Push(_) => HandOff(c, todo);
        case Retract(_) => RollBack(c, todo);
        case Inline(_) => FallBack(c, todo);
      }
    }

    /** One step of the worker that the choice names. */
    method Advance(c: Choice)
      modifies this
      ensures View() == Step(config, capacity, old(View()), c)
    {
      if c.worker < |workers| {
        match workers[c.worker]
        case Starting => Start(c);
        case Abandoning => Abandon(c);
        case Polling => AskStop(c);
        case Flagging => LoadFlag(c);
        case Popping => Take(c);
        case Counting => LoadCount(c);
        case Busy(todo) => Process(c, todo);
        case Exited(_) =>
      }
    }

    /** Lets the workers run as the schedule says. */
    method Dispatch(schedule: seq<Choice>)
      modifies this
      ensures View() == Run(config, capacity, old(View()), schedule)
    {
      var step := 0;
      while step < |schedule|
        invariant 0 <= step <= |schedule|
        invariant View() == Run(config, capacity, old(View()), schedule[..step])
      {
        Advance(schedule[step]);
        assert schedule[..step + 1][..step] == schedule[..step];
        step := step + 1;
      }
      assert schedule[..step] == schedule;
    }
  }

  /** The fields after a step that consists of the move `m`. */
  lemma StepMoves(cfg: Config, capacity: nat, s: State, c: Choice, m: Move)
    requires c.worker < |s.workers| && Decide(cfg, capacity, s, c, s.workers[c.worker]) == m
    ensures var s' := Step(cfg, capacity, s, c);
            && s'.queue == NewQueue(s.queue, m.op)
            && s'.outstanding == (if m.op.Adjust? then s.outstanding + m.op.delta else s.outstanding)
            && s'.visitFailed == (s.visitFailed || m.op.RaiseFlag?)
            && s'.stats == (if Reported(m.op) == [] then s.stats else Bump(s.stats, Reported(m.op)[0]))
            && s'.workers == s.workers[c.worker := m.next]
            && s'.log == (if Reported(m.op) == [] then s.log else s.log + Reported(m.op))
            && s'.lost == (if m.dropped == [] then s.lost else s.lost + Owed(cfg, m.dropped))
            && s'.noise == (if m.op.ReportNoReader? then s.noise + Noise(m.op) else s.noise)
  {
  }

  /** The step that skips a subdirectory for want of a reader. */
  lemma NoReaderStep(cfg: Config, capacity: nat, s: State, c: Choice, todo: seq<Action>)
    requires c.worker < |s.workers| && s.workers[c.worker] == Busy(todo) && todo != [] && todo[0].Inline? && !c.allocOk
    ensures var dir := todo[0].dir;
            Step(cfg, capacity, s, c)
            == s.(stats := Bump(s.stats, ReaderFailed(dir.path)), log := s.log + [ReaderFailed(dir.path)],
                  noise := s.noise + multiset{ReaderFailed(dir.path)}, lost := s.lost + Owed(cfg, [Open(dir)]),
                  workers := s.workers[c.worker := Busy(todo[1..])])
  {
    StepMoves(cfg, capacity, s, c, Move(Op.ReportNoReader(todo[0].dir.path), Busy(todo[1..]), [Open(todo[0].dir)]));
  }

  /** What an undisturbed, completed run amounts to. */
  lemma OutcomeOfRun(cfg: Config, capacity: nat, workers: nat, schedule: seq<Choice>)
    requires cfg.root != [] && capacity >= 1 && workers >= 1
    requires var s := Run(cfg, capacity, Initial(cfg, workers), schedule); AllExited(s) && Undisturbed(s)
    ensures var s := Run(cfg, capacity, Initial(cfg, workers), schedule);
            && (!s.visitFailed <==>
                  forall ev :: ev in Reference(cfg) && (ev.FileVisited? || ev.FolderVisited?) ==> cfg.visit(ev.entry))
            && (!s.visitFailed ==> s.stats == Tally(Reference(cfg)))
  {
    VerdictIsScheduleFree(cfg, capacity, workers, schedule);
    if !Run(cfg, capacity, Initial(cfg, workers), schedule).visitFailed {
      CompleteRunIsTheWalk(cfg, capacity, workers, schedule);
    }
  }

  /** How the parts of the environment outside this library answer a parallel walk. */
  datatype Environment = Environment(
    queueCreated: bool,
    rootQueued: bool,
    workerCount: nat,
    schedule: seq<Choice>,
    dispatchOk: bool)

  predicate Started(setup: Setup, env: Environment) {
    Acceptable(setup) && setup.concurrencyGiven && env.queueCreated && env.rootQueued
  }

  function QueueCapacity(setup: Setup): (capacity: nat)
    ensures capacity >= 1
  {
    if setup.queueCapacity > 0 then setup.queueCapacity else DEFAULT_QUEUE_CAPACITY
  }

  method WalkParallel(setup: Setup, env: Environment) returns (ok: bool, stats: Option<Stats>, ghost final: State)
    ensures !ok && stats == None <==>
              || !setup.rootGiven || |setup.config.root| == 0 || |setup.config.root| >= 4096 || !setup.visitGiven
              || !setup.memoryGiven || !setup.concurrencyGiven || !env.queueCreated || !env.rootQueued
    ensures !Started(setup, env) ==> !ok && stats == None
    ensures Started(setup, env) ==>
              && final == Run(setup.config, if setup.queueCapacity == 0 then 16384 else setup.queueCapacity, Initial(setup.config, env.workerCount), env.schedule)
              && stats == Some(final.stats) && (ok <==> env.dispatchOk && !final.visitFailed)
    // once all workers are done and undisturbed, the outcome is that of the reference walk
    ensures Started(setup, env) && env.workerCount >= 1 && AllExited(final) && Undisturbed(final) && env.dispatchOk ==>
              && (ok <==> forall ev :: ev in Reference(setup.config) && (ev.FileVisited? || ev.FolderVisited?) ==>
                            setup.config.visit(ev.entry))
              && (ok ==> stats == Some(Tally(Reference(setup.config))))
  {
    var config := setup.config;
    final := State([], 0, false, ZeroStats, [], [], multiset{}, multiset{});
    if !setup.rootGiven || |config.root| == 0 || |config.root| >= MAX_PATH_LENGTH {
      return false, None, final;
    }
    if !setup.visitGiven {
      return false, None, final;
    }
    if !setup.memoryGiven || !setup.concurrencyGiven {
      return false, None, final;
    }
    var capacity := QueueCapacity(setup);
    if !env.queueCreated || !env.rootQueued {
      return false, None, final;
    }
    var shared := new Shared(config, capacity, env.workerCount);
    shared.Dispatch(env.schedule);
    final := shared.View();
    stats := Some(shared.stats);
    ok := env.dispatchOk && !shared.visitFailed;
    if env.workerCount >= 1 && AllExited(final) && Undisturbed(final) {
      OutcomeOfRun(config, capacity, env.workerCount, env.schedule);
    }
  }

  /** With the same arguments, undisturbed walks of either kind return the same verdict and the same counters. */
  method BothWalksAgree(setup: Setup, world: World, env: Environment)
    returns (okSeq: bool, okPar: bool, statsSeq: Option<Stats>, statsPar: Option<Stats>)
    requires Started(setup, env) && env.workerCount >= 1 && env.dispatchOk
    ensures var sequential := Final(setup.config, world);
            var parallel := Run(setup.config, QueueCapacity(setup), Initial(setup.config, env.workerCount), env.schedule);
            && statsSeq == Some(sequential.stats) && (okSeq <==> !sequential.visitFailed)
            && statsPar == Some(parallel.stats) && (okPar <==> !parallel.visitFailed)
            && (!sequential.stopSeen && !sequential.readerMissing && AllExited(parallel) && Undisturbed(parallel) ==>
                  okSeq == okPar && (okSeq ==> statsSeq == statsPar))
  {
    ghost var sequential, parallel;
    okSeq, statsSeq, sequential := WalkSequential(setup, world);
    okPar, statsPar, parallel := WalkParallel(setup, env);
  }
}
