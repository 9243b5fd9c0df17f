/**
 Termination of the parallel walk, symbolic-link cycles included: every descent makes the
 path longer and paths are capped, so each directory stands for a finite amount of work,
 and every step that is not idle spinning uses some of it up.
 */
module WalkTermination {
  import opened Bytes
  import opened WalkReference
  import opened WalkProtocol
  import opened WalkOnce

  // ---------- a budget for everything still to be done ----------

  /** The steps that opening and processing a directory can take, everything below it included. */
  function DirWeight(cfg: Config, dir: Dir): nat
    decreases Room(dir.path), 1, 0
  {
    match cfg.open(dir.path)
    case None => 1
    case Some(listing) => 1 + ScanWeight(cfg, dir, listing.entries, listing.readFails)
  }

  function ScanWeight(cfg: Config, dir: Dir, entries: seq<Entry>, readFails: bool): nat
    decreases Room(dir.path), 0, |entries|
  {
    if entries == [] then
      if readFails then 3 else 1
    else
      var x := Examine(cfg, dir, entries[0]);
      1 + 2 * |x.events|
      + (match x.descend case None => 0 case Some(sub) => 5 + DirWeight(cfg, sub))
      + ScanWeight(cfg, dir, entries[1..], readFails)
  }

  function ActionWeight(cfg: Config, action: Action): nat {
    match action
    case Check => 1
    case Raise => 1
    case Emit(_) => 2
    case Open(dir) => DirWeight(cfg, dir)
    case Scan(dir, entries, readFails) => ScanWeight(cfg, dir, entries, readFails)
    case Inline(dir) => 2 + DirWeight(cfg, dir)
    case Retract(dir) => 3 + DirWeight(cfg, dir)
    case Push(dir) => 4 + DirWeight(cfg, dir)
    case Announce(dir) => 5 + DirWeight(cfg, dir)
  }

  function TodoWeight(cfg: Config, todo: seq<Action>): nat {
    if todo == [] then 0 else ActionWeight(cfg, todo[0]) + TodoWeight(cfg, todo[1..])
  }

  function WorkerWeight(cfg: Config, w: Worker): nat {
    match w
    case Starting => 2
    case Busy(todo) => 2 + TodoWeight(cfg, todo)
    case Exited(_) => 0
    case _ => 1
  }

  function WorkersWeight(cfg: Config, workers: seq<Worker>): nat {
    if workers == [] then 0 else WorkerWeight(cfg, workers[0]) + WorkersWeight(cfg, workers[1..])
  }

  function QueueWeight(cfg: Config, queue: seq<Dir>): nat {
    if queue == [] then 0 else 3 + DirWeight(cfg, queue[0]) + QueueWeight(cfg, queue[1..])
  }

  function Potential(cfg: Config, s: State): nat {
    QueueWeight(cfg, s.queue) + WorkersWeight(cfg, s.workers)
  }

  // ---------- sums ----------

  lemma {:induction false} TodoConcat(cfg: Config, a: seq<Action>, b: seq<Action>)
    ensures TodoWeight(cfg, a + b) == TodoWeight(cfg, a) + TodoWeight(cfg, b)
  {
    if a == [] {
      assert a + b == b;
    } else {
      assert (a + b)[1..] == a[1..] + b;
      TodoConcat(cfg, a[1..], b);
    }
  }

  lemma {:induction false} QueueConcat(cfg: Config, a: seq<Dir>, b: seq<Dir>)
    ensures QueueWeight(cfg, a + b) == QueueWeight(cfg, a) + QueueWeight(cfg, b)
  {
    if a == [] {
      assert a + b == b;
    } else {
      assert (a + b)[1..] == a[1..] + b;
      QueueConcat(cfg, a[1..], b);
    }
  }

  lemma QueueRemove(cfg: Config, queue: seq<Dir>, k: nat)
    requires k < |queue|
    ensures QueueWeight(cfg, queue) == QueueWeight(cfg, queue[..k] + queue[k + 1..]) + 3 + DirWeight(cfg, queue[k])
  {
    assert queue == queue[..k] + queue[k..];
    QueueConcat(cfg, queue[..k], queue[k..]);
    QueueConcat(cfg, queue[..k], queue[k + 1..]);
    assert queue[k..][1..] == queue[k + 1..];
  }

  lemma {:induction false} WorkersUpdate(cfg: Config, workers: seq<Worker>, i: nat, w: Worker)
    requires i < |workers|
    ensures WorkersWeight(cfg, workers[i := w])
         == WorkersWeight(cfg, workers) - WorkerWeight(cfg, workers[i]) + WorkerWeight(cfg, w)
  {
    if i == 0 {
      assert workers[i := w][1..] == workers[1..];
    } else {
      assert workers[i := w][1..] == workers[1..][i - 1 := w];
      WorkersUpdate(cfg, workers[1..], i - 1, w);
    }
  }

  lemma TodoPrepend(cfg: Config, action: Action, rest: seq<Action>)
    ensures TodoWeight(cfg, [action] + rest) == ActionWeight(cfg, action) + TodoWeight(cfg, rest)
  {
    assert ([action] + rest)[1..] == rest;
  }

  lemma {:induction false} EmitAllWeight(cfg: Config, events: seq<Event>)
    ensures TodoWeight(cfg, EmitAll(events)) == 2 * |events|
  {
    if events != [] {
      EmitAllWeight(cfg, events[1..]);
      TodoPrepend(cfg, Emit(events[0]), EmitAll(events[1..]));
    }
  }

  lemma EntryPlanWeight(cfg: Config, x: Examined, tail: seq<Action>)
    ensures TodoWeight(cfg, EntryPlan(x) + tail)
         == 2 * |x.events| + (match x.descend case None => 0 case Some(sub) => 5 + DirWeight(cfg, sub)) + TodoWeight(cfg, tail)
  {
    EmitAllWeight(cfg, x.events);
    var announce := if x.descend.Some? then [Announce(x.descend.value)] else [];
    TodoConcat(cfg, EmitAll(x.events), announce);
    if x.descend.Some? {
      TodoPrepend(cfg, Announce(x.descend.value), []);
      assert announce == [Announce(x.descend.value)] + [];
    }
    TodoConcat(cfg, EntryPlan(x), tail);
  }

  // ---------- every productive step uses some of the budget ----------

  predicate Spinning(w: Worker) {
    w.Polling? || w.Flagging? || w.Popping? || w.Counting?
  }

  /** Going round the worker loop without finding work, or having left already. */
  predicate IdleMove(w: Worker, m: Move) {
    m.op.Nothing? && m.dropped == [] && (m.next == w || (Spinning(w) && Spinning(m.next)))
  }

  predicate Idle(cfg: Config, capacity: nat, s: State, c: Choice) {
    c.worker >= |s.workers|
    || IdleMove(s.workers[c.worker], Decide(cfg, capacity, s, c, s.workers[c.worker]))
  }

  /** What a move costs: the worker's own weight, plus what it queues, minus what it takes from the queue. */
  ghost predicate Costs(cfg: Config, queue: seq<Dir>, w: Worker, m: Move) {
    var before := WorkerWeight(cfg, w) + QueueWeight(cfg, queue);
    var after := WorkerWeight(cfg, m.next) + QueueWeight(cfg, NewQueue(queue, m.op));
    if IdleMove(w, m) then after == before else after < before
  }

  lemma OpenCosts(cfg: Config, capacity: nat, s: State, c: Choice, todo: seq<Action>)
    requires todo != [] && todo[0].Open?
    ensures Costs(cfg, s.queue, Busy(todo), Perform(cfg, capacity, s, c, todo))
  {
    var dir, rest := todo[0].dir, todo[1..];
    match cfg.open(dir.path)
    case None =>
    case Some(listing) => TodoPrepend(cfg, Scan(dir, listing.entries, listing.readFails), rest);
  }

  lemma ScanCosts(cfg: Config, capacity: nat, s: State, c: Choice, todo: seq<Action>)
    requires todo != [] && todo[0].Scan?
    ensures Costs(cfg, s.queue, Busy(todo), Perform(cfg, capacity, s, c, todo))
  {
    var dir, entries, readFails, rest := todo[0].dir, todo[0].entries, todo[0].readFails, todo[1..];
    if entries != [] {
      var next := Scan(dir, entries[1..], readFails);
      EntryPlanWeight(cfg, Examine(cfg, dir, entries[0]), [next] + rest);
      TodoPrepend(cfg, next, rest);
    } else if readFails {
      TodoPrepend(cfg, Emit(ReadFailed(dir.path)), rest);
    } else {
      assert [] + rest == rest;
    }
  }

  lemma HandOffCosts(cfg: Config, capacity: nat, s: State, c: Choice, todo: seq<Action>)
    requires todo != [] && (todo[0].Announce? || todo[0].Push? || todo[0].Retract?)
    ensures Costs(cfg, s.queue, Busy(todo), Perform(cfg, capacity, s, c, todo))
  {
    hide DirWeight, ScanWeight, Examine;
    var dir, rest := todo[0].dir, todo[1..];
    match todo[0]
    case Announce(_) => TodoPrepend(cfg, Push(dir), rest);
    case Push(_) =>
      TodoPrepend(cfg, Retract(dir), rest);
      QueueConcat(cfg, s.queue, [dir]);
      assert QueueWeight(cfg, [dir]) == 3 + DirWeight(cfg, dir);
    case Retract(_) => TodoPrepend(cfg, Inline(dir), rest);
  }

  lemma FreshWeight(cfg: Config, dir: Dir, rest: seq<Action>)
    ensures TodoWeight(cfg, [Check, Open(dir)] + rest) == 1 + DirWeight(cfg, dir) + TodoWeight(cfg, rest)
  {
    var opening := [Open(dir)] + rest;
    TodoPrepend(cfg, Open(dir), rest);
    TodoPrepend(cfg, Check, opening);
    assert [Check, Open(dir)] + rest == [Check] + opening;
  }

  lemma PerformCosts(cfg: Config, capacity: nat, s: State, c: Choice, todo: seq<Action>)
    ensures Costs(cfg, s.queue, Busy(todo), Perform(cfg, capacity, s, c, todo))
  {
    if todo != [] {
      match todo[0]
      case Open(_) => OpenCosts(cfg, capacity, s, c, todo);
      case Scan(_, _, _) => ScanCosts(cfg, capacity, s, c, todo);
      case Announce(_) => HandOffCosts(cfg, capacity, s, c, todo);
      case Push(_) => HandOffCosts(cfg, capacity, s, c, todo);
      case Retract(_) => HandOffCosts(cfg, capacity, s, c, todo);
      case Inline(dir) => FreshWeight(cfg, dir, todo[1..]);
      case Emit(_) => TodoPrepend(cfg, Raise, []); assert [Raise] + [] == [Raise];
      case _ =>
    }
  }

  lemma PopCosts(cfg: Config, capacity: nat, s: State, c: Choice)
    ensures Costs(cfg, s.queue, Popping, Decide(cfg, capacity, s, c, Popping))
  {
    hide DirWeight, ScanWeight, Examine;
    if c.popAt.Some? && c.popAt.value < |s.queue| {
      var dir := s.queue[c.popAt.value];
      QueueRemove(cfg, s.queue, c.popAt.value);
      FreshWeight(cfg, dir, []);
      assert [Check, Open(dir)] + [] == [Check, Open(dir)];
    }
  }

  lemma DecideCosts(cfg: Config, capacity: nat, s: State, c: Choice, w: Worker)
    ensures Costs(cfg, s.queue, w, Decide(cfg, capacity, s, c, w))
  {
    match w
    case Busy(todo) => PerformCosts(cfg, capacity, s, c, todo);
    case Popping => PopCosts(cfg, capacity, s, c);
    case _ =>
  }

  /** Idle steps keep the budget; every other step uses up at least one unit of it. */
  lemma StepCosts(cfg: Config, capacity: nat, s: State, c: Choice)
    ensures var s' := Step(cfg, capacity, s, c);
            if Idle(cfg, capacity, s, c) then Potential(cfg, s') == Potential(cfg, s)
            else Potential(cfg, s') < Potential(cfg, s)
  {
    if c.worker < |s.workers| {
      var w := s.workers[c.worker];
      var m := Decide(cfg, capacity, s, c, w);
      DecideCosts(cfg, capacity, s, c, w);
      WorkersUpdate(cfg, s.workers, c.worker, m.next);
    }
  }

  /** The number of steps of a schedule that are not idle. */
  ghost function Productive(cfg: Config, capacity: nat, s: State, schedule: seq<Choice>): nat {
    if schedule == [] then 0
    else
      var init, c := schedule[..|schedule| - 1], schedule[|schedule| - 1];
      Productive(cfg, capacity, s, init)
      + if Idle(cfg, capacity, Run(cfg, capacity, s, init), c) then 0 else 1
  }

  /** However long the schedule, it contains a bounded number of steps that do something. */
  lemma {:induction false} ProductiveStepsAreBounded(cfg: Config, capacity: nat, s: State, schedule: seq<Choice>)
    ensures Productive(cfg, capacity, s, schedule) + Potential(cfg, Run(cfg, capacity, s, schedule))
         <= Potential(cfg, s)
  {
    if schedule != [] {
      var init, c := schedule[..|schedule| - 1], schedule[|schedule| - 1];
      ProductiveStepsAreBounded(cfg, capacity, s, init);
      StepCosts(cfg, capacity, Run(cfg, capacity, s, init), c);
    }
  }

  // ---------- paths ----------

  /** A descent makes the path longer by a separator and the name, and stays below the cap. */
  lemma DescentLengthensPath(cfg: Config, dir: Dir, entry: Entry)
    ensures var x := Examine(cfg, dir, entry);
            x.descend.Some? ==>
              |x.descend.value.path| == |dir.path| + 1 + |entry.name| && |x.descend.value.path| < MAX_PATH_LENGTH
  {
  }

  /** Directories list no entry without a name. */
  ghost predicate Named(cfg: Config) {
    forall path, e :: cfg.open(path).Some? && e in cfg.open(path).value.entries ==> e.name != []
  }

  /** Descents nest at most so deep, along links in cycles too: each takes two characters of the longest path. */
  lemma {:induction false} ChainsAreShort(cfg: Config, chain: seq<Dir>)
    requires Named(cfg) && Chain(cfg, chain) && |chain[0].path| < MAX_PATH_LENGTH
    ensures |chain[0].path| + 2 * (|chain| - 1) <= |chain[|chain| - 1].path| < MAX_PATH_LENGTH
    decreases |chain|
  {
    if |chain| > 1 {
      var n := |chain| - 1;
      var init := chain[..n];
      assert DescendsTo(cfg, chain[n - 1], chain[n]);
      forall i | 0 < i < n ensures DescendsTo(cfg, init[i - 1], init[i]) {
        assert DescendsTo(cfg, chain[i - 1], chain[i]);
      }
      ChainsAreShort(cfg, init);
      var e :| e in cfg.open(chain[n - 1].path).value.entries && Examine(cfg, chain[n - 1], e).descend == Some(chain[n]);
      DescentLengthensPath(cfg, chain[n - 1], e);
    }
  }
}
