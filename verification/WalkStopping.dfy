/**
 How the parallel walk winds down (src/walk/bc_io_walk_parallel.c:85-106, 219-237, 258-284): what
 a stop answer, a raised flag and a missing reader still allow the workers to do.
 */
module WalkStopping {
  import opened WalkReference
  import opened WalkProtocol
  import opened WalkConservation
  import opened WalkTheorems
  import opened WalkOnce
  import WalkOrder

  ghost predicate AllStop(schedule: seq<Choice>) {
    forall c :: c in schedule ==> c.stop
  }

  // ---------- a stop request from the start ----------

  predicate NeverStarted(w: Worker) {
    w.Starting? || w.Abandoning? || w.Polling? || w == Exited(Stopped) || w == Exited(NoReader)
  }

  ghost predicate Idle(cfg: Config, s: State)
    requires cfg.root != []
  {
    && s.queue == [At(cfg.root, 0)]
    && (forall w :: w in s.workers ==> NeverStarted(w))
    && (forall ev :: ev in s.log ==> ev == ReaderFailed(cfg.root))
  }

  /** When the stop check says yes from the start, nothing is opened and nothing visited, whatever else happens. */
  lemma {:induction false} StopFromTheStart(cfg: Config, capacity: nat, workers: nat, schedule: seq<Choice>)
    requires cfg.root != [] && AllStop(schedule)
    ensures var s := Run(cfg, capacity, Initial(cfg, workers), schedule);
            && s.queue == [At(cfg.root, 0)]
            && (forall w :: w in s.workers ==> !w.Busy?)
            && (forall ev :: ev in s.log ==> ev == ReaderFailed(cfg.root))
  {
    StopKeepsIdle(cfg, capacity, workers, schedule);
  }

  lemma {:induction false} StopKeepsIdle(cfg: Config, capacity: nat, workers: nat, schedule: seq<Choice>)
    requires cfg.root != [] && AllStop(schedule)
    ensures Idle(cfg, Run(cfg, capacity, Initial(cfg, workers), schedule))
  {
    if schedule != [] {
      var init, c := schedule[..|schedule| - 1], schedule[|schedule| - 1];
      StopKeepsIdle(cfg, capacity, workers, init);
      assert c in schedule;
      StopStepKeepsIdle(cfg, capacity, Run(cfg, capacity, Initial(cfg, workers), init), c);
    }
  }

  lemma StopStepKeepsIdle(cfg: Config, capacity: nat, s: State, c: Choice)
    requires cfg.root != [] && Idle(cfg, s) && c.stop
    ensures Idle(cfg, Step(cfg, capacity, s, c))
  {
    if c.worker < |s.workers| {
      var w := s.workers[c.worker];
      assert w in s.workers;
      StoppedMove(cfg, capacity, s, c, w);
      hide Decide;
    }
  }

  lemma StoppedMove(cfg: Config, capacity: nat, s: State, c: Choice, w: Worker)
    requires NeverStarted(w) && c.stop
    ensures var m := Decide(cfg, capacity, s, c, w);
            && NeverStarted(m.next) && !m.op.Enqueue? && !m.op.Dequeue?
            && (forall ev :: ev in Reported(m.op) ==> ev == ReaderFailed(cfg.root))
  {
  }

  // ---------- popping after a stop request or a failure ----------

  /** The choice lets worker `i` take a directory out of the queue. */
  predicate Takes(cfg: Config, capacity: nat, s: State, c: Choice, i: nat) {
    c.worker == i && i < |s.workers| && s.workers[i].Popping? && Step(cfg, capacity, s, c).workers[i].Busy?
  }

  /** How many directories worker `i` takes out of the queue. */
  function Taken(cfg: Config, capacity: nat, s: State, schedule: seq<Choice>, i: nat): nat {
    if schedule == [] then 0
    else
      var init := schedule[..|schedule| - 1];
      Taken(cfg, capacity, s, init, i)
      + if Takes(cfg, capacity, Run(cfg, capacity, s, init), schedule[|schedule| - 1], i) then 1 else 0
  }

  /** The worker has asked whether to stop, and has not popped yet. */
  predicate PastStopCheck(w: Worker) {
    w.Flagging? || w.Popping?
  }

  lemma StoppedMoveAsksFirst(cfg: Config, capacity: nat, s: State, c: Choice, w: Worker)
    requires c.stop
    ensures PastStopCheck(Decide(cfg, capacity, s, c, w).next) ==> PastStopCheck(w)
  {
  }

  lemma StopStepUsesTurn(cfg: Config, capacity: nat, s: State, c: Choice, i: nat)
    requires c.stop && i < |s.workers|
    ensures var s' := Step(cfg, capacity, s, c);
            && |s'.workers| == |s.workers|
            && (if Takes(cfg, capacity, s, c, i) then 1 else 0) + (if PastStopCheck(s'.workers[i]) then 1 else 0)
               <= (if PastStopCheck(s.workers[i]) then 1 else 0)
  {
    if c.worker == i {
      StoppedMoveAsksFirst(cfg, capacity, s, c, s.workers[i]);
      hide Decide;
    }
  }

  /** After a stop request that stays, a worker takes at most one more directory, and none unless it had already asked. */
  lemma {:induction false} StopAllowsOneMore(cfg: Config, capacity: nat, s: State, schedule: seq<Choice>, i: nat)
    requires AllStop(schedule) && i < |s.workers|
    ensures var s' := Run(cfg, capacity, s, schedule);
            && |s'.workers| == |s.workers|
            && Taken(cfg, capacity, s, schedule, i) + (if PastStopCheck(s'.workers[i]) then 1 else 0)
               <= (if PastStopCheck(s.workers[i]) then 1 else 0)
  {
    hide Step, Takes;
    if schedule != [] {
      var init, c := schedule[..|schedule| - 1], schedule[|schedule| - 1];
      StopAllowsOneMore(cfg, capacity, s, init, i);
      assert c in schedule;
      StopStepUsesTurn(cfg, capacity, Run(cfg, capacity, s, init), c, i);
    }
  }

  lemma FailedMoveSeesFlag(cfg: Config, capacity: nat, s: State, c: Choice, w: Worker)
    requires s.visitFailed
    ensures !Decide(cfg, capacity, s, c, w).next.Popping?
  {
  }

  lemma FailedStepUsesTurn(cfg: Config, capacity: nat, s: State, c: Choice, i: nat)
    requires s.visitFailed && i < |s.workers|
    ensures var s' := Step(cfg, capacity, s, c);
            && s'.visitFailed && |s'.workers| == |s.workers|
            && (if Takes(cfg, capacity, s, c, i) then 1 else 0) + (if s'.workers[i].Popping? then 1 else 0)
               <= (if s.workers[i].Popping? then 1 else 0)
  {
    if c.worker == i {
      FailedMoveSeesFlag(cfg, capacity, s, c, s.workers[i]);
      hide Decide;
    }
  }

  /** Once the flag is up, a worker takes at most one more directory, and none unless it had already looked. */
  lemma {:induction false} FailureAllowsOneMore(cfg: Config, capacity: nat, s: State, schedule: seq<Choice>, i: nat)
    requires s.visitFailed && i < |s.workers|
    ensures var s' := Run(cfg, capacity, s, schedule);
            && s'.visitFailed && |s'.workers| == |s.workers|
            && Taken(cfg, capacity, s, schedule, i) + (if s'.workers[i].Popping? then 1 else 0)
               <= (if s.workers[i].Popping? then 1 else 0)
  {
    hide Step, Takes;
    if schedule != [] {
      var init, c := schedule[..|schedule| - 1], schedule[|schedule| - 1];
      FailureAllowsOneMore(cfg, capacity, s, init, i);
      FailedStepUsesTurn(cfg, capacity, Run(cfg, capacity, s, init), c, i);
    }
  }

  // ---------- reporting after a failure ----------

  /** How many events a worker may still log before its next look at the flag. */
  function BeforeNextLook(todo: seq<Action>): nat {
    if todo == [] then 0
    else
      match todo[0]
      case Check => 0
      case Scan(_, _, _) => 0
      case Raise => BeforeNextLook(todo[1..])
      case _ => 1 + BeforeNextLook(todo[1..])
  }

  function StillLogs(w: Worker): nat {
    match w
    case Starting => 1
    case Busy(todo) => BeforeNextLook(todo)
    case _ => 0
  }

  function AllStillLog(workers: seq<Worker>): nat {
    if workers == [] then 0 else StillLogs(workers[0]) + AllStillLog(workers[1..])
  }

  lemma {:induction false} StillLogUpdate(workers: seq<Worker>, i: nat, w: Worker)
    requires i < |workers|
    ensures AllStillLog(workers[i := w]) == AllStillLog(workers) - StillLogs(workers[i]) + StillLogs(w)
  {
    if i == 0 {
      assert workers[i := w][1..] == workers[1..];
    } else {
      assert workers[i := w][1..] == workers[1..][i - 1 := w];
      StillLogUpdate(workers[1..], i - 1, w);
    }
  }

  lemma LookPrepend(action: Action, rest: seq<Action>)
    ensures BeforeNextLook([action] + rest)
         == if action.Check? || action.Scan? then 0 else if action.Raise? then BeforeNextLook(rest) else 1 + BeforeNextLook(rest)
  {
    assert ([action] + rest)[1..] == rest;
  }

  /** A move with the flag up logs no more than it uses up of what the worker may still log. */
  lemma FailedMoveLogs(cfg: Config, capacity: nat, s: State, c: Choice, w: Worker)
    requires s.visitFailed
    ensures var m := Decide(cfg, capacity, s, c, w);
            |Reported(m.op)| + StillLogs(m.next) <= StillLogs(w)
  {
    match w
    case Busy(todo) =>
      if todo != [] {
        var rest := todo[1..];
        match todo[0]
        case Open(dir) =>
          if cfg.open(dir.path).Some? {
            var listing := cfg.open(dir.path).value;
            LookPrepend(Scan(dir, listing.entries, listing.readFails), rest);
          }
        case Announce(dir) => LookPrepend(Push(dir), rest);
        case Push(dir) => LookPrepend(Retract(dir), rest);
        case Retract(dir) => LookPrepend(Inline(dir), rest);
        case Inline(dir) =>
          LookPrepend(Check, [Open(dir)] + rest);
          assert [Check, Open(dir)] + rest == [Check] + ([Open(dir)] + rest);
        case _ =>
      }
    case Popping =>
      if c.popAt.Some? && c.popAt.value < |s.queue| {
        LookPrepend(Check, [Open(s.queue[c.popAt.value])]);
        assert [Check, Open(s.queue[c.popAt.value])] == [Check] + [Open(s.queue[c.popAt.value])];
      }
    case _ =>
  }

  /** With the flag up, what is logged from then on and what may still be logged never grows. */
  lemma {:induction false} FailureRunLogs(cfg: Config, capacity: nat, s: State, schedule: seq<Choice>)
    requires s.visitFailed
    ensures var s' := Run(cfg, capacity, s, schedule);
            s'.visitFailed && |s'.log| + AllStillLog(s'.workers) <= |s.log| + AllStillLog(s.workers)
  {
    hide Decide, BeforeNextLook;
    if schedule != [] {
      var init, c := schedule[..|schedule| - 1], schedule[|schedule| - 1];
      FailureRunLogs(cfg, capacity, s, init);
      var t := Run(cfg, capacity, s, init);
      if c.worker < |t.workers| {
        FailedMoveLogs(cfg, capacity, t, c, t.workers[c.worker]);
        StillLogUpdate(t.workers, c.worker, Decide(cfg, capacity, t, c, t.workers[c.worker]).next);
      }
    }
  }

  // ---------- at most two events per worker ----------

  /** Between two looks at the flag lie a report and a hand-over at most. */
  ghost predicate Layered(todo: seq<Action>) {
    todo == [] ||
    (Layered(todo[1..]) &&
     match todo[0]
     case Check => true
     case Emit(_) => BeforeNextLook(todo[1..]) <= 1
     case _ => BeforeNextLook(todo[1..]) == 0)
  }

  ghost predicate LayeredWorker(w: Worker) {
    w.Busy? ==> Layered(w.todo)
  }

  lemma LayeredPrepend(action: Action, rest: seq<Action>)
    requires Layered(rest)
    requires action.Check? || BeforeNextLook(rest) == 0 || (action.Emit? && BeforeNextLook(rest) <= 1)
    ensures Layered([action] + rest)
  {
    assert ([action] + rest)[1..] == rest;
  }

  lemma LayeredLooksSoon(todo: seq<Action>)
    requires Layered(todo)
    ensures BeforeNextLook(todo) <= 2
  {
  }

  lemma EntryIsLayered(cfg: Config, dir: Dir, entry: Entry, rest: seq<Action>)
    requires Layered(rest) && BeforeNextLook(rest) == 0
    ensures Layered(EntryPlan(Examine(cfg, dir, entry)) + rest)
  {
    var x := Examine(cfg, dir, entry);
    var tail := (if x.descend.Some? then [Announce(x.descend.value)] else []) + rest;
    if x.descend.Some? {
      LayeredPrepend(Announce(x.descend.value), rest);
      LookPrepend(Announce(x.descend.value), rest);
    } else {
      assert tail == rest;
    }
    if x.events == [] {
      assert EntryPlan(x) + rest == tail;
    } else {
      assert x.events[1..] == [] && EmitAll(x.events) == [Emit(x.events[0])] + EmitAll([]);
      assert EntryPlan(x) + rest == [Emit(x.events[0])] + tail;
      LayeredPrepend(Emit(x.events[0]), tail);
    }
  }

  lemma FreshIsLayered(dir: Dir, rest: seq<Action>)
    requires Layered(rest) && BeforeNextLook(rest) == 0
    ensures Layered([Check, Open(dir)] + rest)
  {
    LayeredPrepend(Open(dir), rest);
    LayeredPrepend(Check, [Open(dir)] + rest);
    assert [Check, Open(dir)] + rest == [Check] + ([Open(dir)] + rest);
  }

  lemma PerformStaysLayered(cfg: Config, capacity: nat, s: State, c: Choice, todo: seq<Action>)
    requires Layered(todo)
    ensures LayeredWorker(Perform(cfg, capacity, s, c, todo).next)
  {
    if todo != [] {
      var rest := todo[1..];
      match todo[0]
      case Open(dir) =>
        if cfg.open(dir.path).Some? {
          var listing := cfg.open(dir.path).value;
          LayeredPrepend(Scan(dir, listing.entries, listing.readFails), rest);
        }
      case Scan(dir, entries, readFails) =>
        if entries != [] {
          var next := Scan(dir, entries[1..], readFails);
          LayeredPrepend(next, rest);
          LookPrepend(next, rest);
          EntryIsLayered(cfg, dir, entries[0], [next] + rest);
        } else if readFails {
          LayeredPrepend(Emit(ReadFailed(dir.path)), rest);
        } else {
          assert [] + rest == rest;
        }
      case Emit(ev) => LayeredPrepend(Raise, []); assert [Raise] + [] == [Raise];
      case Announce(dir) => LayeredPrepend(Push(dir), rest);
      case Push(dir) => LayeredPrepend(Retract(dir), rest);
      case Retract(dir) => LayeredPrepend(Inline(dir), rest);
      case Inline(dir) => FreshIsLayered(dir, rest);
      case _ =>
    }
  }

  lemma StepStaysLayered(cfg: Config, capacity: nat, s: State, c: Choice)
    requires forall w :: w in s.workers ==> LayeredWorker(w)
    ensures forall w :: w in Step(cfg, capacity, s, c).workers ==> LayeredWorker(w)
  {
    hide Layered, Perform;
    if c.worker < |s.workers| {
      var w := s.workers[c.worker];
      assert w in s.workers;
      match w
      case Busy(todo) => PerformStaysLayered(cfg, capacity, s, c, todo);
      case Popping =>
        if c.popAt.Some? && c.popAt.value < |s.queue| {
          NothingIsLayered();
          FreshIsLayered(s.queue[c.popAt.value], []);
          assert [Check, Open(s.queue[c.popAt.value])] + [] == [Check, Open(s.queue[c.popAt.value])];
        }
      case _ =>
    }
  }

  lemma NothingIsLayered()
    ensures Layered([]) && BeforeNextLook([]) == 0
  {
  }

  lemma {:induction false} RunStaysLayered(cfg: Config, capacity: nat, workers: nat, schedule: seq<Choice>)
    requires cfg.root != []
    ensures forall w :: w in Run(cfg, capacity, Initial(cfg, workers), schedule).workers ==> LayeredWorker(w)
  {
    if schedule != [] {
      var init := schedule[..|schedule| - 1];
      RunStaysLayered(cfg, capacity, workers, init);
      StepStaysLayered(cfg, capacity, Run(cfg, capacity, Initial(cfg, workers), init), schedule[|schedule| - 1]);
    }
  }

  lemma {:induction false} LayeredLogLittle(workers: seq<Worker>)
    requires forall w :: w in workers ==> LayeredWorker(w)
    ensures AllStillLog(workers) <= 2 * |workers|
  {
    if workers != [] {
      assert workers[0] in workers;
      LayeredLogLittle(workers[1..]);
    }
  }

  /** Once the flag is up, at most two more events per worker are logged, however the run goes on. */
  lemma LittleIsLoggedAfterFailure(cfg: Config, capacity: nat, workers: nat, before: seq<Choice>, behind: seq<Choice>)
    requires cfg.root != [] && Run(cfg, capacity, Initial(cfg, workers), before).visitFailed
    ensures var s := Run(cfg, capacity, Initial(cfg, workers), before);
            |Run(cfg, capacity, s, behind).log| <= |s.log| + 2 * workers
  {
    var s := Run(cfg, capacity, Initial(cfg, workers), before);
    RunStaysLayered(cfg, capacity, workers, before);
    RunKeepsWorkers(cfg, capacity, workers, before);
    LayeredLogLittle(s.workers);
    FailureRunLogs(cfg, capacity, s, behind);
  }

  // ---------- missing readers ----------

  /** Workers without a reader never get to work: each says so once and raises the flag. */
  ghost predicate NobodyWorks(cfg: Config, s: State)
    requires cfg.root != []
  {
    && s.queue == [At(cfg.root, 0)]
    && (forall w :: w in s.workers ==> w.Starting? || w.Abandoning? || w == Exited(NoReader))
    && (forall ev :: ev in s.log ==> ev == ReaderFailed(cfg.root))
    && |s.log| == CountStarted(s.workers)
    && (Exited(NoReader) in s.workers ==> s.visitFailed)
  }

  function CountStarted(workers: seq<Worker>): nat {
    if workers == [] then 0 else (if workers[0].Starting? then 0 else 1) + CountStarted(workers[1..])
  }

  lemma {:induction false} CountStartedUpdate(workers: seq<Worker>, i: nat, w: Worker)
    requires i < |workers|
    ensures CountStarted(workers[i := w])
         == CountStarted(workers) - (if workers[i].Starting? then 0 else 1) + (if w.Starting? then 0 else 1)
  {
    if i == 0 {
      assert workers[i := w][1..] == workers[1..];
    } else {
      assert workers[i := w][1..] == workers[1..][i - 1 := w];
      CountStartedUpdate(workers[1..], i - 1, w);
    }
  }

  lemma {:induction false} CountNotStarted(workers: seq<Worker>)
    ensures (forall w :: w in workers ==> w.Starting?) ==> CountStarted(workers) == 0
    ensures (forall w :: w in workers ==> !w.Starting?) ==> CountStarted(workers) == |workers|
  {
    if workers != [] {
      CountNotStarted(workers[1..]);
      assert workers == [workers[0]] + workers[1..];
    }
  }

  lemma {:induction false} NoReaderStaysIdle(cfg: Config, capacity: nat, workers: nat, schedule: seq<Choice>)
    requires cfg.root != [] && forall c :: c in schedule ==> !c.allocOk
    ensures NobodyWorks(cfg, Run(cfg, capacity, Initial(cfg, workers), schedule))
  {
    if schedule == [] {
      CountNotStarted(Initial(cfg, workers).workers);
    } else {
      var init, c := schedule[..|schedule| - 1], schedule[|schedule| - 1];
      NoReaderStaysIdle(cfg, capacity, workers, init);
      assert c in schedule;
      NoReaderStep(cfg, capacity, Run(cfg, capacity, Initial(cfg, workers), init), c);
    }
  }

  lemma NoReaderMove(cfg: Config, capacity: nat, s: State, c: Choice, w: Worker)
    requires !c.allocOk && (w.Starting? || w.Abandoning? || w == Exited(NoReader))
    ensures Decide(cfg, capacity, s, c, w)
         == if w.Starting? then Move(ReportNoReader(cfg.root), Abandoning, [])
            else if w.Abandoning? then Move(RaiseFlag, Exited(NoReader), []) else Move(Nothing, w, [])
  {
  }

  lemma NoReaderStep(cfg: Config, capacity: nat, s: State, c: Choice)
    requires cfg.root != [] && NobodyWorks(cfg, s) && !c.allocOk
    ensures NobodyWorks(cfg, Step(cfg, capacity, s, c))
  {
    if c.worker < |s.workers| {
      var w := s.workers[c.worker];
      assert w in s.workers;
      NoReaderMove(cfg, capacity, s, c, w);
      CountStartedUpdate(s.workers, c.worker, Decide(cfg, capacity, s, c, w).next);
      hide Decide, CountStarted;
    }
  }

  /** When no reader can be created, nothing is opened, each worker reports it once, and the walk fails. */
  lemma NoReadersNoWalk(cfg: Config, capacity: nat, workers: nat, schedule: seq<Choice>)
    requires cfg.root != [] && workers >= 1 && forall c :: c in schedule ==> !c.allocOk
    ensures var s := Run(cfg, capacity, Initial(cfg, workers), schedule);
            && (forall ev :: ev in s.log ==> ev == ReaderFailed(cfg.root))
            && (AllExited(s) ==> |s.log| == workers && s.visitFailed)
  {
    var s := Run(cfg, capacity, Initial(cfg, workers), schedule);
    NoReaderStaysIdle(cfg, capacity, workers, schedule);
    RunKeepsWorkers(cfg, capacity, workers, schedule);
    if AllExited(s) {
      CountNotStarted(s.workers);
      assert s.workers[0] in s.workers;
    }
  }

  /** A subdirectory whose fallback reader cannot be created is reported and never opened, by any worker, ever after. */
  lemma SkippedIsNeverOpened(cfg: Config, capacity: nat, workers: nat, before: seq<Choice>, c: Choice, behind: seq<Choice>,
                             dir: Dir, rest: seq<Action>)
    requires cfg.root != [] && capacity >= 1 && WellNamedFilesystem(cfg)
    requires var s := Run(cfg, capacity, Initial(cfg, workers), before);
             c.worker < |s.workers| && s.workers[c.worker] == Busy([Inline(dir)] + rest) && !c.allocOk
    ensures var s := Run(cfg, capacity, Initial(cfg, workers), before);
            var skipped := Step(cfg, capacity, s, c);
            && skipped.log == s.log + [ReaderFailed(dir.path)] && skipped.workers[c.worker] == Busy(rest)
            && Count(cfg, Attempt(dir.path), Run(cfg, capacity, skipped, behind).log) == 0
  {
    var s := Run(cfg, capacity, Initial(cfg, workers), before);
    var skipped := Step(cfg, capacity, s, c);
    SkipStep(cfg, capacity, s, c, dir, rest);
    hide Step;
    var schedule := before + [c];
    assert schedule[..|schedule| - 1] == before;
    assert Run(cfg, capacity, Initial(cfg, workers), schedule) == skipped;
    LossIsNeverMadeUp(cfg, capacity, workers, schedule, behind, dir);
  }

  lemma SkipStep(cfg: Config, capacity: nat, s: State, c: Choice, dir: Dir, rest: seq<Action>)
    requires c.worker < |s.workers| && s.workers[c.worker] == Busy([Inline(dir)] + rest) && !c.allocOk
    ensures var skipped := Step(cfg, capacity, s, c);
            && skipped.log == s.log + [ReaderFailed(dir.path)] && skipped.workers[c.worker] == Busy(rest)
            && multiset(DirTrace(cfg, dir)) <= skipped.lost
  {
    assert ([Inline(dir)] + rest)[1..] == rest && ([Inline(dir)] + rest)[0] == Inline(dir);
    assert Decide(cfg, capacity, s, c, s.workers[c.worker]) == Move(ReportNoReader(dir.path), Busy(rest), [Open(dir)]);
    OwedOne(cfg, Open(dir));
    hide Decide, Owed;
  }

  /** What has been given up is not done by anybody else. */
  lemma LossIsNeverMadeUp(cfg: Config, capacity: nat, workers: nat, before: seq<Choice>, behind: seq<Choice>, dir: Dir)
    requires cfg.root != [] && capacity >= 1 && WellNamedFilesystem(cfg)
    requires multiset(DirTrace(cfg, dir)) <= Run(cfg, capacity, Initial(cfg, workers), before).lost
    ensures var s := Run(cfg, capacity, Initial(cfg, workers), before);
            Count(cfg, Attempt(dir.path), Run(cfg, capacity, s, behind).log) == 0
  {
    var s := Run(cfg, capacity, Initial(cfg, workers), before);
    var end := Run(cfg, capacity, s, behind);
    var q := Attempt(dir.path);
    RunAppend(cfg, capacity, Initial(cfg, workers), before, behind);
    RunConserves(cfg, capacity, workers, before + behind);
    NoiseIsMissingReaders(cfg, capacity, workers, before + behind);
    LostNeverShrinks(cfg, capacity, s, behind);
    var done, reference := end.log + DirTrace(cfg, dir), Reference(cfg);
    forall ev | Matches(cfg, q, ev) ensures multiset(done)[ev] <= multiset(reference)[ev] {
      assert multiset(done)[ev] == multiset(end.log)[ev] + multiset(DirTrace(cfg, dir))[ev];
      assert multiset(DirTrace(cfg, dir))[ev] <= end.lost[ev];
      assert ev !in end.noise;
      var owed := OwedByQueue(cfg, end.queue) + OwedByWorkers(cfg, end.workers);
      assert (multiset(end.log) + OwedByQueue(cfg, end.queue) + OwedByWorkers(cfg, end.workers) + end.lost)[ev]
          == (multiset(reference) + end.noise)[ev];
    }
    CountIsMonotone(cfg, q, done, reference);
    CountConcat(cfg, q, end.log, DirTrace(cfg, dir));
    DirMeetsOnce(cfg, q, At(cfg.root, 0));
    CountDir(cfg, q, dir);
  }

  lemma {:induction false} LostNeverShrinks(cfg: Config, capacity: nat, s: State, schedule: seq<Choice>)
    ensures s.lost <= Run(cfg, capacity, s, schedule).lost
  {
    if schedule != [] {
      LostNeverShrinks(cfg, capacity, s, schedule[..|schedule| - 1]);
    }
  }

  lemma {:induction false} RunAppend(cfg: Config, capacity: nat, s: State, a: seq<Choice>, b: seq<Choice>)
    ensures Run(cfg, capacity, s, a + b) == Run(cfg, capacity, Run(cfg, capacity, s, a), b)
    decreases |b|
  {
    if b == [] {
      assert a + b == a;
    } else {
      assert (a + b)[..|a + b| - 1] == a + b[..|b| - 1];
      RunAppend(cfg, capacity, s, a, b[..|b| - 1]);
    }
  }

  // ---------- room in the queue ----------

  /** The worker has announced a subdirectory that it is going to process itself. */
  ghost predicate HandsBack(w: Worker) {
    w.Busy? && exists a :: a in w.todo && (a.Retract? || a.Inline?)
  }

  lemma {:induction false} QueueOwesItsLength(cfg: Config, queue: seq<Dir>)
    ensures |OwedByQueue(cfg, queue)| >= |queue|
  {
    if queue != [] {
      QueueOwesItsLength(cfg, queue[1..]);
      assert |multiset(DirTrace(cfg, queue[0]))| == |DirTrace(cfg, queue[0])| >= 1;
    }
  }

  /**
   A queue with room for everything is used for everything: as long as pushes into a queue with room and
   allocations succeed, no subdirectory is processed by the worker that found it.
   */
  lemma {:induction false} RoomMeansQueued(cfg: Config, capacity: nat, workers: nat, schedule: seq<Choice>)
    requires cfg.root != [] && capacity >= |Reference(cfg)| && forall c :: c in schedule ==> c.pushOk && c.allocOk
    ensures var s := Run(cfg, capacity, Initial(cfg, workers), schedule);
            s.noise == multiset{} && forall w :: w in s.workers ==> !HandsBack(w)
  {
    if schedule != [] {
      var init, c := schedule[..|schedule| - 1], schedule[|schedule| - 1];
      RoomMeansQueued(cfg, capacity, workers, init);
      var s := Run(cfg, capacity, Initial(cfg, workers), init);
      RunConserves(cfg, capacity, workers, init);
      assert c in schedule;
      if c.worker < |s.workers| {
        MoveKeepsQueueing(cfg, capacity, s, c);
      }
    }
  }

  lemma MoveKeepsQueueing(cfg: Config, capacity: nat, s: State, c: Choice)
    requires cfg.root != [] && capacity >= |Reference(cfg)| && c.pushOk && c.allocOk && c.worker < |s.workers|
    requires Conserved(cfg, s) && s.noise == multiset{} && forall w :: w in s.workers ==> !HandsBack(w)
    ensures var s' := Step(cfg, capacity, s, c);
            s'.noise == multiset{} && forall w :: w in s'.workers ==> !HandsBack(w)
  {
    var w := s.workers[c.worker];
    assert w in s.workers;
    var m := Decide(cfg, capacity, s, c, w);
    if w.Busy? && w.todo != [] && w.todo[0].Push? {
      PushFindsRoom(cfg, capacity, s, c.worker);
    }
    QueueingMove(cfg, capacity, s, c, w);
    hide Decide, Conserved, HandsBack;
    assert s.noise + multiset{} == s.noise;
  }

  lemma QueueingMove(cfg: Config, capacity: nat, s: State, c: Choice, w: Worker)
    requires c.pushOk && c.allocOk && !HandsBack(w)
    requires w.Busy? && w.todo != [] && w.todo[0].Push? ==> |s.queue| < capacity
    ensures var m := Decide(cfg, capacity, s, c, w); !m.op.ReportNoReader? && !HandsBack(m.next)
  {
    if w.Busy? && w.todo != [] {
      assert w.todo[0] in w.todo && forall a :: a in w.todo[1..] ==> a in w.todo;
      if w.todo[0].Scan? && w.todo[0].entries != [] {
        WalkOrder.EmitAllIn(Examine(cfg, w.todo[0].dir, w.todo[0].entries[0]).events);
      }
    }
  }

  lemma PushFindsRoom(cfg: Config, capacity: nat, s: State, i: nat)
    requires cfg.root != [] && capacity >= |Reference(cfg)| && i < |s.workers|
    requires Conserved(cfg, s) && s.noise == multiset{}
    requires s.workers[i].Busy? && s.workers[i].todo != [] && s.workers[i].todo[0].Push?
    ensures |s.queue| < capacity
  {
    var dir := s.workers[i].todo[0].dir;
    QueueOwesItsLength(cfg, s.queue);
    WorkersSplit(cfg, s.workers, i);
    var trace := multiset(DirTrace(cfg, dir));
    assert |trace| == |DirTrace(cfg, dir)| >= 1;
    assert |Owed(cfg, s.workers[i].todo)| >= |trace|;
    var all := multiset(s.log) + OwedByQueue(cfg, s.queue) + OwedByWorkers(cfg, s.workers) + s.lost;
    assert |all| == |multiset(Reference(cfg))| == |Reference(cfg)|;
  }
}
