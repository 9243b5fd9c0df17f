/**
 The outstanding-directory count: what it equals in every reachable state, and why
 reading zero means that all work is done (src/walk/bc_io_walk_parallel.c:226-228, 276-284).
 */
module WalkCounter {
  import opened WalkReference
  import opened WalkProtocol

  /** Between the fetch_add and either a successful push or the roll-back. */
  predicate InFlight(todo: seq<Action>) {
    todo != [] && (todo[0].Push? || todo[0].Retract?)
  }

  /** What a worker contributes to the count: the directory it popped and the increment in flight. */
  function HeldBy(w: Worker): nat {
    if !w.Busy? then 0 else if InFlight(w.todo) then 2 else 1
  }

  function Held(workers: seq<Worker>): nat {
    if workers == [] then 0 else HeldBy(workers[0]) + Held(workers[1..])
  }

  predicate Plain(action: Action) {
    !action.Push? && !action.Retract? && !action.Raise?
  }

  ghost predicate AllPlain(todo: seq<Action>) {
    forall a :: a in todo ==> Plain(a)
  }

  /** Only the next action can be a push, a roll-back or the raising of the flag. */
  ghost predicate Tidy(todo: seq<Action>) {
    todo != [] ==> AllPlain(todo[1..]) && (todo[0].Raise? ==> |todo| == 1)
  }

  ghost predicate TidyWorker(w: Worker) {
    w.Busy? ==> Tidy(w.todo)
  }

  ghost predicate Counted(capacity: nat, s: State) {
    && s.outstanding == |s.queue| + Held(s.workers)
    && |s.queue| <= capacity
    && (forall w :: w in s.workers ==> TidyWorker(w))
    && (Exited(Drained) in s.workers ==> s.outstanding == 0)
  }

  /** Nothing is queued and nobody is processing. */
  ghost predicate Quiet(s: State) {
    s.queue == [] && forall w :: w in s.workers ==> !w.Busy?
  }

  // ---------- sums ----------

  lemma {:induction false} HeldConcat(a: seq<Worker>, b: seq<Worker>)
    ensures Held(a + b) == Held(a) + Held(b)
  {
    if a == [] {
      assert a + b == b;
    } else {
      assert (a + b)[1..] == a[1..] + b;
      HeldConcat(a[1..], b);
    }
  }

  lemma HeldUpdate(workers: seq<Worker>, i: nat, w: Worker)
    requires i < |workers|
    ensures Held(workers[i := w]) == Held(workers) - HeldBy(workers[i]) + HeldBy(w)
  {
    HeldConcat(workers[..i], [workers[i]] + workers[i + 1..]);
    HeldConcat(workers[..i], [w] + workers[i + 1..]);
    assert workers == workers[..i] + ([workers[i]] + workers[i + 1..]);
    assert workers[i := w] == workers[..i] + ([w] + workers[i + 1..]);
    assert ([workers[i]] + workers[i + 1..])[1..] == workers[i + 1..];
    assert ([w] + workers[i + 1..])[1..] == workers[i + 1..];
  }

  lemma {:induction false} HeldIsZero(workers: seq<Worker>)
    ensures Held(workers) == 0 <==> forall w :: w in workers ==> !w.Busy?
  {
    if workers != [] {
      HeldIsZero(workers[1..]);
      assert workers == [workers[0]] + workers[1..];
    }
  }

  lemma {:induction false} HeldIsBounded(workers: seq<Worker>)
    ensures Held(workers) <= 2 * |workers|
  {
    if workers != [] {
      HeldIsBounded(workers[1..]);
    }
  }

  // ---------- the actions for an entry are plain ----------

  lemma {:induction false} EmitAllIsPlain(events: seq<Event>)
    ensures forall a :: a in EmitAll(events) ==> Plain(a)
  {
    if events != [] {
      EmitAllIsPlain(events[1..]);
    }
  }

  lemma EntryPlanIsPlain(x: Examined)
    ensures forall a :: a in EntryPlan(x) ==> Plain(a)
  {
    EmitAllIsPlain(x.events);
  }

  // ---------- preservation ----------

  lemma PlainIsTidy(rest: seq<Action>)
    requires AllPlain(rest)
    ensures Tidy(rest) && !InFlight(rest) && (rest != [] ==> !rest[0].Raise?)
  {
    if rest != [] {
      assert rest[0] in rest && AllPlain(rest[1..]);
    }
  }

  lemma PrefixedIsTidy(action: Action, rest: seq<Action>)
    requires AllPlain(rest) && !action.Raise?
    ensures Tidy([action] + rest)
    ensures InFlight([action] + rest) <==> action.Push? || action.Retract?
  {
    assert ([action] + rest)[1..] == rest;
  }

  /** A move keeps the list tidy, and the count moves with what the worker holds and queues. */
  ghost predicate WellCounted(capacity: nat, queue: seq<Dir>, w: Worker, m: Move) {
    && TidyWorker(m.next)
    && (if m.op.Adjust? then m.op.delta else 0)
       == |NewQueue(queue, m.op)| - |queue| + HeldBy(m.next) - HeldBy(w)
    && |NewQueue(queue, m.op)| <= capacity
  }

  lemma OpenCounts(cfg: Config, capacity: nat, s: State, c: Choice, todo: seq<Action>)
    requires todo != [] && todo[0].Open? && AllPlain(todo[1..]) && |s.queue| <= capacity
    ensures WellCounted(capacity, s.queue, Busy(todo), Perform(cfg, capacity, s, c, todo))
  {
    var dir, rest := todo[0].dir, todo[1..];
    match cfg.open(dir.path)
    case None => PlainIsTidy(rest);
    case Some(listing) =>
      PlainIsTidy([Scan(dir, listing.entries, listing.readFails)] + rest);
  }

  lemma ScanCounts(cfg: Config, capacity: nat, s: State, c: Choice, todo: seq<Action>)
    requires todo != [] && todo[0].Scan? && AllPlain(todo[1..]) && |s.queue| <= capacity
    ensures WellCounted(capacity, s.queue, Busy(todo), Perform(cfg, capacity, s, c, todo))
  {
    var dir, entries, readFails, rest := todo[0].dir, todo[0].entries, todo[0].readFails, todo[1..];
    if entries == [] {
      PlainIsTidy((if readFails then [Emit(ReadFailed(dir.path))] else []) + rest);
    } else {
      EntryPlanIsPlain(Examine(cfg, dir, entries[0]));
      PlainIsTidy(EntryPlan(Examine(cfg, dir, entries[0])) + ([Scan(dir, entries[1..], readFails)] + rest));
    }
  }

  lemma HandOffCounts(cfg: Config, capacity: nat, s: State, c: Choice, todo: seq<Action>)
    requires todo != [] && AllPlain(todo[1..]) && |s.queue| <= capacity
    requires todo[0].Announce? || todo[0].Push? || todo[0].Retract?
    ensures WellCounted(capacity, s.queue, Busy(todo), Perform(cfg, capacity, s, c, todo))
  {
    var dir, rest := todo[0].dir, todo[1..];
    PlainIsTidy(rest);
    match todo[0]
    case Announce(_) => PrefixedIsTidy(Push(dir), rest);
    case Push(_) => PrefixedIsTidy(Retract(dir), rest);
    case Retract(_) => PrefixedIsTidy(Inline(dir), rest);
  }

  lemma InlineCounts(cfg: Config, capacity: nat, s: State, c: Choice, todo: seq<Action>)
    requires todo != [] && AllPlain(todo[1..]) && |s.queue| <= capacity && todo[0].Inline?
    ensures WellCounted(capacity, s.queue, Busy(todo), Perform(cfg, capacity, s, c, todo))
  {
    PlainIsTidy(todo[1..]);
    PlainIsTidy([Check, Open(todo[0].dir)] + todo[1..]);
  }

  lemma PerformCounts(cfg: Config, capacity: nat, s: State, c: Choice, todo: seq<Action>)
    requires Tidy(todo) && |s.queue| <= capacity
    ensures WellCounted(capacity, s.queue, Busy(todo), Perform(cfg, capacity, s, c, todo))
  {
    if todo != [] {
      PlainIsTidy(todo[1..]);
      match todo[0]
      case Open(_) => OpenCounts(cfg, capacity, s, c, todo);
      case Scan(_, _, _) => ScanCounts(cfg, capacity, s, c, todo);
      case Announce(_) => HandOffCounts(cfg, capacity, s, c, todo);
      case Push(_) => HandOffCounts(cfg, capacity, s, c, todo);
      case Retract(_) => HandOffCounts(cfg, capacity, s, c, todo);
      case Inline(_) => InlineCounts(cfg, capacity, s, c, todo);
      case _ =>
    }
  }

  lemma DecideCounts(cfg: Config, capacity: nat, s: State, c: Choice, w: Worker)
    requires TidyWorker(w) && |s.queue| <= capacity
    ensures WellCounted(capacity, s.queue, w, Decide(cfg, capacity, s, c, w))
  {
    if w.Busy? {
      PerformCounts(cfg, capacity, s, c, w.todo);
    }
  }

  /** A worker leaves through the counter only when the counter is zero. */
  lemma DrainsAtZero(cfg: Config, capacity: nat, s: State, c: Choice, w: Worker)
    requires Decide(cfg, capacity, s, c, w).next == Exited(Drained)
    ensures w == Exited(Drained) || s.outstanding == 0
  {
  }

  lemma QuietMoveKeepsZero(cfg: Config, capacity: nat, s: State, c: Choice, w: Worker)
    requires !w.Busy?
    ensures !Decide(cfg, capacity, s, c, w).op.Adjust?
  {
  }

  lemma StepCounts(cfg: Config, capacity: nat, s: State, c: Choice)
    requires Counted(capacity, s)
    ensures Counted(capacity, Step(cfg, capacity, s, c))
  {
    if c.worker < |s.workers| {
      var w := s.workers[c.worker];
      assert w in s.workers;
      var m := Decide(cfg, capacity, s, c, w);
      DecideCounts(cfg, capacity, s, c, w);
      HeldUpdate(s.workers, c.worker, m.next);
      if Exited(Drained) in Step(cfg, capacity, s, c).workers {
        StepDrainsAtZero(cfg, capacity, s, c);
      }
    }
  }

  lemma StepDrainsAtZero(cfg: Config, capacity: nat, s: State, c: Choice)
    requires Counted(capacity, s) && Exited(Drained) in Step(cfg, capacity, s, c).workers
    ensures s.outstanding == 0 && Step(cfg, capacity, s, c).outstanding == 0
  {
    if c.worker < |s.workers| {
      var w := s.workers[c.worker];
      assert w in s.workers;
      if Exited(Drained) !in s.workers {
        DrainsAtZero(cfg, capacity, s, c, w);
      }
      ZeroMeansQuiet(capacity, s);
      QuietMoveKeepsZero(cfg, capacity, s, c, w);
    }
  }

  lemma {:induction false} RunCounts(cfg: Config, capacity: nat, workers: nat, schedule: seq<Choice>)
    requires cfg.root != [] && capacity >= 1
    ensures Counted(capacity, Run(cfg, capacity, Initial(cfg, workers), schedule))
  {
    if schedule == [] {
      HeldIsZero(Initial(cfg, workers).workers);
    } else {
      var init := schedule[..|schedule| - 1];
      RunCounts(cfg, capacity, workers, init);
      StepCounts(cfg, capacity, Run(cfg, capacity, Initial(cfg, workers), init), schedule[|schedule| - 1]);
    }
  }

  // ---------- what the count tells ----------

  /** Reading zero means that the queue is empty and nobody is processing, and only then. */
  lemma ZeroMeansQuiet(capacity: nat, s: State)
    requires Counted(capacity, s)
    ensures s.outstanding == 0 <==> Quiet(s)
  {
    HeldIsZero(s.workers);
  }

  /** The count never exceeds the queue's capacity plus two for each worker. */
  lemma OutstandingIsBounded(capacity: nat, s: State)
    requires Counted(capacity, s)
    ensures 0 <= s.outstanding <= capacity + 2 * |s.workers|
  {
    HeldIsBounded(s.workers);
  }

  /** Once zero, the count stays zero and no further work appears. */
  lemma {:induction false} ZeroIsStable(cfg: Config, capacity: nat, s: State, schedule: seq<Choice>)
    requires Counted(capacity, s) && s.outstanding == 0
    ensures var s' := Run(cfg, capacity, s, schedule);
            Counted(capacity, s') && s'.outstanding == 0 && Quiet(s')
  {
    if schedule == [] {
      ZeroMeansQuiet(capacity, s);
    } else {
      var before := Run(cfg, capacity, s, schedule[..|schedule| - 1]);
      var c := schedule[|schedule| - 1];
      ZeroIsStable(cfg, capacity, s, schedule[..|schedule| - 1]);
      StepCounts(cfg, capacity, before, c);
      if c.worker < |before.workers| {
        QuietMoveKeepsZero(cfg, capacity, before, c, before.workers[c.worker]);
      }
      ZeroMeansQuiet(capacity, Step(cfg, capacity, before, c));
    }
  }

  /**
   No work is abandoned: while a directory is queued or being processed, inline or not,
   no step takes a worker out through the counter.
   */
  lemma NobodyDrainsEarly(cfg: Config, capacity: nat, s: State, c: Choice)
    requires Counted(capacity, s) && !Quiet(s)
    ensures Exited(Drained) !in Step(cfg, capacity, s, c).workers
  {
    ZeroMeansQuiet(capacity, s);
    if Exited(Drained) in Step(cfg, capacity, s, c).workers {
      StepDrainsAtZero(cfg, capacity, s, c);
    }
  }
}
