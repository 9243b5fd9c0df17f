/**
 Conservation of work: in every state of every run, the events so far, the events still
 owed by the queue and the workers, and the events given up are exactly the events of
 the reference walk plus the reader failures.
 */
module WalkConservation {
  import opened Bytes
  import opened WalkReference
  import opened WalkProtocol

  function OwedByQueue(cfg: Config, queue: seq<Dir>): multiset<Event> {
    if queue == [] then multiset{} else multiset(DirTrace(cfg, queue[0])) + OwedByQueue(cfg, queue[1..])
  }

  function OwedByWorker(cfg: Config, w: Worker): multiset<Event> {
    if w.Busy? then Owed(cfg, w.todo) else multiset{}
  }

  function OwedByWorkers(cfg: Config, workers: seq<Worker>): multiset<Event> {
    if workers == [] then multiset{} else OwedByWorker(cfg, workers[0]) + OwedByWorkers(cfg, workers[1..])
  }

  ghost predicate Conserved(cfg: Config, s: State)
    requires cfg.root != []
  {
    multiset(s.log) + OwedByQueue(cfg, s.queue) + OwedByWorkers(cfg, s.workers) + s.lost
    == multiset(DirTrace(cfg, At(cfg.root, 0))) + s.noise
  }

  // ---------- sums over sequences ----------

  lemma {:induction false} OwedConcat(cfg: Config, a: seq<Action>, b: seq<Action>)
    ensures Owed(cfg, a + b) == Owed(cfg, a) + Owed(cfg, b)
  {
    if a == [] {
      assert a + b == b;
    } else {
      assert (a + b)[1..] == a[1..] + b;
      OwedConcat(cfg, a[1..], b);
    }
  }

  lemma {:induction false} QueueConcat(cfg: Config, a: seq<Dir>, b: seq<Dir>)
    ensures OwedByQueue(cfg, a + b) == OwedByQueue(cfg, a) + OwedByQueue(cfg, b)
  {
    if a == [] {
      assert a + b == b;
    } else {
      assert (a + b)[1..] == a[1..] + b;
      QueueConcat(cfg, a[1..], b);
    }
  }

  lemma {:induction false} WorkersConcat(cfg: Config, a: seq<Worker>, b: seq<Worker>)
    ensures OwedByWorkers(cfg, a + b) == OwedByWorkers(cfg, a) + OwedByWorkers(cfg, b)
  {
    if a == [] {
      assert a + b == b;
    } else {
      assert (a + b)[1..] == a[1..] + b;
      WorkersConcat(cfg, a[1..], b);
    }
  }

  lemma QueueSplit(cfg: Config, queue: seq<Dir>, k: nat)
    requires k < |queue|
    ensures OwedByQueue(cfg, queue)
         == OwedByQueue(cfg, queue[..k] + queue[k + 1..]) + multiset(DirTrace(cfg, queue[k]))
  {
    assert queue == queue[..k] + queue[k..];
    QueueConcat(cfg, queue[..k], queue[k..]);
    QueueConcat(cfg, queue[..k], queue[k + 1..]);
    assert queue[k..][1..] == queue[k + 1..];
  }

  lemma WorkersSplit(cfg: Config, workers: seq<Worker>, i: nat)
    requires i < |workers|
    ensures OwedByWorkers(cfg, workers)
         == OwedByWorkers(cfg, workers[..i]) + OwedByWorker(cfg, workers[i]) + OwedByWorkers(cfg, workers[i + 1..])
  {
    assert workers == workers[..i] + workers[i..];
    WorkersConcat(cfg, workers[..i], workers[i..]);
    assert workers[i..][1..] == workers[i + 1..];
  }

  // ---------- what actions owe ----------

  lemma {:induction false} OwedEmitAll(cfg: Config, events: seq<Event>)
    ensures Owed(cfg, EmitAll(events)) == multiset(events)
  {
    if events != [] {
      OwedEmitAll(cfg, events[1..]);
      assert events == [events[0]] + events[1..];
      assert EmitAll(events)[1..] == EmitAll(events[1..]);
    }
  }

  lemma OwedEntryPlan(cfg: Config, x: Examined)
    ensures Owed(cfg, EntryPlan(x)) == multiset(x.events) + multiset(DescentTrace(cfg, x.descend))
  {
    OwedEmitAll(cfg, x.events);
    if x.descend.Some? {
      OwedConcat(cfg, EmitAll(x.events), [Announce(x.descend.value)]);
      OwedOne(cfg, Announce(x.descend.value));
    } else {
      assert EntryPlan(x) == EmitAll(x.events);
    }
  }

  lemma OwedOne(cfg: Config, action: Action)
    ensures Owed(cfg, [action]) == OwedBy(cfg, action)
  {
    assert [action][1..] == [];
  }

  lemma OwedPrepend(cfg: Config, action: Action, rest: seq<Action>)
    ensures Owed(cfg, [action] + rest) == OwedBy(cfg, action) + Owed(cfg, rest)
  {
    assert ([action] + rest)[1..] == rest;
  }

  lemma BagOfConcat(a: seq<Event>, b: seq<Event>, c: seq<Event>)
    ensures multiset(a + b + c) == multiset(a) + multiset(b) + multiset(c)
    ensures multiset(a + b + c) == multiset{} + (multiset(a) + multiset(b) + multiset(c))
  {
  }

  /** Reading one entry leaves what is reported of it, its subdirectory, and the entries behind it. */
  lemma OwedScan(cfg: Config, dir: Dir, entries: seq<Entry>, readFails: bool, rest: seq<Action>)
    requires entries != []
    ensures Owed(cfg, EntryPlan(Examine(cfg, dir, entries[0])) + ([Scan(dir, entries[1..], readFails)] + rest))
         == multiset(ScanTrace(cfg, dir, entries, readFails)) + Owed(cfg, rest)
  {
    var x := Examine(cfg, dir, entries[0]);
    var tail := ScanTrace(cfg, dir, entries[1..], readFails);
    assert ScanTrace(cfg, dir, entries, readFails) == x.events + DescentTrace(cfg, x.descend) + tail;
    hide Owed, EntryPlan, DescentTrace, ScanTrace, Examine;
    OwedEntryPlan(cfg, x);
    OwedConcat(cfg, EntryPlan(x), [Scan(dir, entries[1..], readFails)] + rest);
    OwedPrepend(cfg, Scan(dir, entries[1..], readFails), rest);
    BagOfConcat(x.events, DescentTrace(cfg, x.descend), tail);
  }

  lemma OwedFresh(cfg: Config, dir: Dir, rest: seq<Action>)
    ensures Owed(cfg, [Check, Open(dir)] + rest) == multiset(DirTrace(cfg, dir)) + Owed(cfg, rest)
  {
    var opening := [Open(dir)] + rest;
    OwedPrepend(cfg, Open(dir), rest);
    OwedPrepend(cfg, Check, opening);
    assert [Check, Open(dir)] + rest == [Check] + opening;
  }

  // ---------- each step balances ----------

  /** What an operation adds to the queue's debt, and what it takes off it. */
  ghost function Given(cfg: Config, op: Op): multiset<Event> {
    if op.Enqueue? then multiset(DirTrace(cfg, op.dir)) else multiset{}
  }

  ghost function Taken(cfg: Config, queue: seq<Dir>, op: Op): multiset<Event> {
    if op.Dequeue? && op.at < |queue| then multiset(DirTrace(cfg, queue[op.at])) else multiset{}
  }

  /** A move only shifts debt between the worker, the queue, the log and the losses. */
  ghost predicate Balanced(cfg: Config, queue: seq<Dir>, w: Worker, m: Move) {
    multiset(Reported(m.op)) + Given(cfg, m.op) + OwedByWorker(cfg, m.next) + Owed(cfg, m.dropped)
    == OwedByWorker(cfg, w) + Taken(cfg, queue, m.op) + Noise(m.op)
  }

  lemma OpenBalances(cfg: Config, capacity: nat, s: State, c: Choice, todo: seq<Action>)
    requires todo != [] && todo[0].Open?
    ensures Balanced(cfg, s.queue, Busy(todo), Perform(cfg, capacity, s, c, todo))
  {
    var dir, rest := todo[0].dir, todo[1..];
    match cfg.open(dir.path)
    case None =>
    case Some(listing) =>
      assert Perform(cfg, capacity, s, c, todo)
          == Move(Report(Opened(dir.path)), Busy([Scan(dir, listing.entries, listing.readFails)] + rest), []);
      OpenedBalances(cfg, s.queue, todo, listing);
  }

  lemma OpenedBalances(cfg: Config, queue: seq<Dir>, todo: seq<Action>, listing: Listing)
    requires todo != [] && todo[0].Open? && cfg.open(todo[0].dir.path) == Some(listing)
    ensures var dir := todo[0].dir;
            Balanced(cfg, queue, Busy(todo),
                     Move(Report(Opened(dir.path)), Busy([Scan(dir, listing.entries, listing.readFails)] + todo[1..]), []))
  {
    var dir, rest := todo[0].dir, todo[1..];
    var next := [Scan(dir, listing.entries, listing.readFails)] + rest;
    var now, scan := multiset{Opened(dir.path)}, multiset(ScanTrace(cfg, dir, listing.entries, listing.readFails));
    OwedPrepend(cfg, Scan(dir, listing.entries, listing.readFails), rest);
    assert Owed(cfg, todo) == (now + scan) + Owed(cfg, rest);
    assert Owed(cfg, next) == scan + Owed(cfg, rest) && Owed(cfg, []) == multiset{};
    hide Owed, DirTrace, ScanTrace;
    var m := Move(Report(Opened(dir.path)), Busy(next), []);
    assert multiset(Reported(m.op)) == now;
    assert Balanced(cfg, queue, Busy(todo), m);
  }

  /** A move that reports nothing and leaves the queue alone balances when the worker's own debt does. */
  lemma SilentMoveBalances(cfg: Config, queue: seq<Dir>, w: Worker, m: Move)
    requires m.op.Nothing? || m.op.Adjust? || m.op.RaiseFlag?
    requires OwedByWorker(cfg, m.next) + Owed(cfg, m.dropped) == OwedByWorker(cfg, w)
    ensures Balanced(cfg, queue, w, m)
  {
  }

  /** Each round of the entry loop: the entry's events and its subdirectory become due, or everything is given up. */
  lemma ScanBalances(cfg: Config, capacity: nat, s: State, c: Choice, todo: seq<Action>)
    requires todo != [] && todo[0].Scan?
    ensures Balanced(cfg, s.queue, Busy(todo), Perform(cfg, capacity, s, c, todo))
  {
    var dir, entries, readFails, rest := todo[0].dir, todo[0].entries, todo[0].readFails, todo[1..];
    var failure := if readFails then [Emit(ReadFailed(dir.path))] else [];
    var more := if entries == [] then failure + rest
                else EntryPlan(Examine(cfg, dir, entries[0])) + ([Scan(dir, entries[1..], readFails)] + rest);
    var m := if s.visitFailed then Move(Nothing, Busy([]), todo) else Move(Nothing, Busy(more), []);
    assert Perform(cfg, capacity, s, c, todo) == m;
    OwedRound(cfg, dir, entries, readFails, rest);
    hide Perform, EntryPlan, Examine, ScanTrace, DirTrace;
    SilentMoveBalances(cfg, s.queue, Busy(todo), m);
  }

  lemma OwedRound(cfg: Config, dir: Dir, entries: seq<Entry>, readFails: bool, rest: seq<Action>)
    ensures var failure := if readFails then [Emit(ReadFailed(dir.path))] else [];
            var more := if entries == [] then failure + rest
                        else EntryPlan(Examine(cfg, dir, entries[0])) + ([Scan(dir, entries[1..], readFails)] + rest);
            Owed(cfg, more) == multiset(ScanTrace(cfg, dir, entries, readFails)) + Owed(cfg, rest)
  {
    if entries != [] {
      OwedScan(cfg, dir, entries, readFails, rest);
    } else if readFails {
      OwedPrepend(cfg, Emit(ReadFailed(dir.path)), rest);
    } else {
      assert [] + rest == rest;
    }
  }

  /** Replacing the next action by one that owes the same balances. */
  lemma SwapBalances(cfg: Config, queue: seq<Dir>, todo: seq<Action>, action: Action, op: Op)
    requires todo != [] && OwedBy(cfg, action) == OwedBy(cfg, todo[0]) && (op.Adjust? || op.Nothing?)
    ensures Balanced(cfg, queue, Busy(todo), Move(op, Busy([action] + todo[1..]), []))
  {
    OwedPrepend(cfg, action, todo[1..]);
    assert Owed(cfg, todo) == Owed(cfg, [action] + todo[1..]) && Owed(cfg, []) == multiset{};
    hide Owed, OwedBy;
    SilentMoveBalances(cfg, queue, Busy(todo), Move(op, Busy([action] + todo[1..]), []));
  }

  lemma HandOffBalances(cfg: Config, capacity: nat, s: State, c: Choice, todo: seq<Action>)
    requires todo != [] && (todo[0].Announce? || todo[0].Retract?)
    ensures Balanced(cfg, s.queue, Busy(todo), Perform(cfg, capacity, s, c, todo))
  {
    hide Balanced, DirTrace, Owed;
    match todo[0]
    case Announce(dir) => SwapBalances(cfg, s.queue, todo, Push(dir), Adjust(1));
    case Retract(dir) => SwapBalances(cfg, s.queue, todo, Inline(dir), Adjust(-1));
  }

  lemma PushBalances(cfg: Config, capacity: nat, s: State, c: Choice, todo: seq<Action>)
    requires todo != [] && todo[0].Push?
    ensures Balanced(cfg, s.queue, Busy(todo), Perform(cfg, capacity, s, c, todo))
  {
    hide Balanced, DirTrace, Owed;
    var dir := todo[0].dir;
    if c.pushOk && |s.queue| < capacity {
      EnqueueBalances(cfg, s.queue, dir, todo);
    } else {
      SwapBalances(cfg, s.queue, todo, Retract(dir), Nothing);
    }
  }

  lemma EnqueueBalances(cfg: Config, queue: seq<Dir>, dir: Dir, todo: seq<Action>)
    requires todo != [] && todo[0] == Push(dir)
    ensures Balanced(cfg, queue, Busy(todo), Move(Enqueue(dir), Busy(todo[1..]), []))
  {
  }

  lemma InlineBalances(cfg: Config, capacity: nat, s: State, c: Choice, todo: seq<Action>)
    requires todo != [] && todo[0].Inline?
    ensures Balanced(cfg, s.queue, Busy(todo), Perform(cfg, capacity, s, c, todo))
  {
    var dir := todo[0].dir;
    var with := Move(Nothing, Busy([Check, Open(dir)] + todo[1..]), []);
    var without := Move(ReportNoReader(dir.path), Busy(todo[1..]), [Open(dir)]);
    assert Perform(cfg, capacity, s, c, todo) == if c.allocOk then with else without;
    ReaderBalances(cfg, s.queue, dir, todo, with);
    NoReaderBalances(cfg, s.queue, dir, todo, without);
  }

  lemma ReaderBalances(cfg: Config, queue: seq<Dir>, dir: Dir, todo: seq<Action>, m: Move)
    requires todo != [] && todo[0] == Inline(dir)
    requires m == Move(Nothing, Busy([Check, Open(dir)] + todo[1..]), [])
    ensures Balanced(cfg, queue, Busy(todo), m)
  {
    OwedFresh(cfg, dir, todo[1..]);
    SilentMoveBalances(cfg, queue, Busy(todo), m);
  }

  lemma NoReaderBalances(cfg: Config, queue: seq<Dir>, dir: Dir, todo: seq<Action>, m: Move)
    requires todo != [] && todo[0] == Inline(dir)
    requires m == Move(ReportNoReader(dir.path), Busy(todo[1..]), [Open(dir)])
    ensures Balanced(cfg, queue, Busy(todo), m)
  {
    OwedOne(cfg, Open(dir));
  }

  lemma EmitBalances(cfg: Config, capacity: nat, s: State, c: Choice, todo: seq<Action>)
    requires todo != [] && todo[0].Emit?
    ensures Balanced(cfg, s.queue, Busy(todo), Perform(cfg, capacity, s, c, todo))
  {
    var ev := todo[0].event;
    var accepted := Move(Report(ev), Busy(todo[1..]), []);
    var rejected := Move(Report(ev), Busy([Raise]), todo[1..]);
    assert Perform(cfg, capacity, s, c, todo) == if Rejects(cfg, ev) then rejected else accepted;
    AcceptedBalances(cfg, s.queue, todo, accepted);
    RejectedBalances(cfg, s.queue, todo, rejected);
  }

  lemma AcceptedBalances(cfg: Config, queue: seq<Dir>, todo: seq<Action>, m: Move)
    requires todo != [] && todo[0].Emit? && m == Move(Report(todo[0].event), Busy(todo[1..]), [])
    ensures Balanced(cfg, queue, Busy(todo), m)
  {
  }

  lemma RejectedBalances(cfg: Config, queue: seq<Dir>, todo: seq<Action>, m: Move)
    requires todo != [] && todo[0].Emit? && m == Move(Report(todo[0].event), Busy([Raise]), todo[1..])
    ensures Balanced(cfg, queue, Busy(todo), m)
  {
    OwedOne(cfg, Raise);
  }

  lemma PlainMoveBalances(cfg: Config, capacity: nat, s: State, c: Choice, todo: seq<Action>)
    requires todo == [] || todo[0].Check? || todo[0].Raise?
    ensures Balanced(cfg, s.queue, Busy(todo), Perform(cfg, capacity, s, c, todo))
  {
    SilentMoveBalances(cfg, s.queue, Busy(todo), Perform(cfg, capacity, s, c, todo));
  }

  lemma PerformBalances(cfg: Config, capacity: nat, s: State, c: Choice, todo: seq<Action>)
    ensures Balanced(cfg, s.queue, Busy(todo), Perform(cfg, capacity, s, c, todo))
  {
    if todo == [] || todo[0].Check? || todo[0].Raise? {
      PlainMoveBalances(cfg, capacity, s, c, todo);
    } else {
      match todo[0]
      case Emit(_) => EmitBalances(cfg, capacity, s, c, todo);
      case Open(_) => OpenBalances(cfg, capacity, s, c, todo);
      case Scan(_, _, _) => ScanBalances(cfg, capacity, s, c, todo);
      case Push(_) => PushBalances(cfg, capacity, s, c, todo);
      case Inline(_) => InlineBalances(cfg, capacity, s, c, todo);
      case _ => HandOffBalances(cfg, capacity, s, c, todo);
    }
  }

  lemma PopBalances(cfg: Config, capacity: nat, s: State, c: Choice)
    ensures Balanced(cfg, s.queue, Popping, Decide(cfg, capacity, s, c, Popping))
  {
    if c.popAt.Some? && c.popAt.value < |s.queue| {
      var dir := s.queue[c.popAt.value];
      OwedFresh(cfg, dir, []);
      assert [Check, Open(dir)] + [] == [Check, Open(dir)];
    }
  }

  lemma IdleBalances(cfg: Config, capacity: nat, s: State, c: Choice, w: Worker)
    requires !w.Busy? && !w.Popping?
    ensures Balanced(cfg, s.queue, w, Decide(cfg, capacity, s, c, w))
  {
  }

  lemma DecideBalances(cfg: Config, capacity: nat, s: State, c: Choice, w: Worker)
    ensures Balanced(cfg, s.queue, w, Decide(cfg, capacity, s, c, w))
  {
    match w
    case Busy(todo) => PerformBalances(cfg, capacity, s, c, todo);
    case Popping => PopBalances(cfg, capacity, s, c);
    case _ => IdleBalances(cfg, capacity, s, c, w);
  }

  // ---------- from one worker to the whole state ----------

  lemma QueueChanges(cfg: Config, queue: seq<Dir>, op: Op)
    ensures OwedByQueue(cfg, NewQueue(queue, op)) + Taken(cfg, queue, op) == OwedByQueue(cfg, queue) + Given(cfg, op)
  {
    hide DirTrace, ScanTrace;
    match op
    case Enqueue(dir) =>
      QueueConcat(cfg, queue, [dir]);
      assert OwedByQueue(cfg, [dir]) == multiset(DirTrace(cfg, dir));
    case Dequeue(k) =>
      if k < |queue| {
        QueueSplit(cfg, queue, k);
      }
    case _ =>
  }

  lemma WorkersChange(cfg: Config, workers: seq<Worker>, i: nat, w: Worker)
    requires i < |workers|
    ensures OwedByWorkers(cfg, workers[i := w]) + OwedByWorker(cfg, workers[i])
         == OwedByWorkers(cfg, workers) + OwedByWorker(cfg, w)
  {
    WorkersSplit(cfg, workers, i);
    WorkersSplit(cfg, workers[i := w], i);
    assert workers[i := w][..i] == workers[..i] && workers[i := w][i + 1..] == workers[i + 1..];
  }

  /** The bookkeeping behind StepConserves: all debts move by amounts that cancel. */
  lemma Settle(log: multiset<Event>, queue: multiset<Event>, workers: multiset<Event>, lost: multiset<Event>,
               noise: multiset<Event>, reference: multiset<Event>,
               queue': multiset<Event>, workers': multiset<Event>, reported: multiset<Event>,
               given: multiset<Event>, taken: multiset<Event>, own: multiset<Event>, own': multiset<Event>,
               dropped: multiset<Event>, more: multiset<Event>)
    requires log + queue + workers + lost == reference + noise
    requires queue' + taken == queue + given
    requires workers' + own == workers + own'
    requires reported + given + own' + dropped == own + taken + more
    ensures (log + reported) + queue' + workers' + (lost + dropped) == reference + (noise + more)
  {
    forall e: Event
      ensures ((log + reported) + queue' + workers' + (lost + dropped))[e] == (reference + (noise + more))[e]
    {
      assert (log + queue + workers + lost)[e] == (reference + noise)[e];
      assert (queue' + taken)[e] == (queue + given)[e];
      assert (workers' + own)[e] == (workers + own')[e];
      assert (reported + given + own' + dropped)[e] == (own + taken + more)[e];
    }
  }

  lemma StepConserves(cfg: Config, capacity: nat, s: State, c: Choice)
    requires cfg.root != [] && Conserved(cfg, s)
    ensures Conserved(cfg, Step(cfg, capacity, s, c))
  {
    if c.worker < |s.workers| {
      var w := s.workers[c.worker];
      var m := Decide(cfg, capacity, s, c, w);
      DecideBalances(cfg, capacity, s, c, w);
      ApplyConserves(cfg, s, c.worker, m);
    }
  }

  lemma ApplyConserves(cfg: Config, s: State, i: nat, m: Move)
    requires cfg.root != [] && Conserved(cfg, s)
    requires i < |s.workers| && Balanced(cfg, s.queue, s.workers[i], m)
    ensures Conserved(cfg, Apply(cfg, s, i, m))
  {
    QueueChanges(cfg, s.queue, m.op);
    WorkersChange(cfg, s.workers, i, m.next);
    Settle(multiset(s.log), OwedByQueue(cfg, s.queue), OwedByWorkers(cfg, s.workers), s.lost, s.noise,
           multiset(DirTrace(cfg, At(cfg.root, 0))),
           OwedByQueue(cfg, NewQueue(s.queue, m.op)), OwedByWorkers(cfg, s.workers[i := m.next]),
           multiset(Reported(m.op)), Given(cfg, m.op), Taken(cfg, s.queue, m.op),
           OwedByWorker(cfg, s.workers[i]), OwedByWorker(cfg, m.next), Owed(cfg, m.dropped), Noise(m.op));
    assert multiset(s.log + Reported(m.op)) == multiset(s.log) + multiset(Reported(m.op));
  }

  lemma {:induction false} InitialConserves(cfg: Config, workers: nat)
    requires cfg.root != []
    ensures Conserved(cfg, Initial(cfg, workers))
  {
    var root: Dir := At(cfg.root, 0);
    assert [root][1..] == [];
    NoBusyOwesNothing(cfg, seq(workers, _ => Starting));
  }

  lemma {:induction false} NoBusyOwesNothing(cfg: Config, workers: seq<Worker>)
    requires forall w :: w in workers ==> !w.Busy?
    ensures OwedByWorkers(cfg, workers) == multiset{}
  {
    if workers != [] {
      assert workers[0] in workers;
      NoBusyOwesNothing(cfg, workers[1..]);
    }
  }

  /** In every state of every run, no work is lost from the books. */
  lemma {:induction false} RunConserves(cfg: Config, capacity: nat, workers: nat, schedule: seq<Choice>)
    requires cfg.root != []
    ensures Conserved(cfg, Run(cfg, capacity, Initial(cfg, workers), schedule))
  {
    if schedule == [] {
      InitialConserves(cfg, workers);
    } else {
      var init := schedule[..|schedule| - 1];
      RunConserves(cfg, capacity, workers, init);
      StepConserves(cfg, capacity, Run(cfg, capacity, Initial(cfg, workers), init), schedule[|schedule| - 1]);
    }
  }
}
