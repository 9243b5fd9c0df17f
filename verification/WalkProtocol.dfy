/**
 The parallel walk as an interleaving of worker steps (src/walk/bc_io_walk_parallel.c:82-356).

 A worker that processes a directory is described by the list of actions it still has
 to perform, innermost directory first. A failed queue push puts the subdirectory's own
 actions in front of that list, which is the inline fallback. Every action touches the
 shared state at most once. When a worker sees `visitFailed` raised it drops its whole
 list: every enclosing loop would see the flag at its next check as well, because the
 flag is never lowered.
 */
module WalkProtocol {
  import opened Bytes
  import opened WalkReference
  import opened WalkStats

  datatype Action =
    | Check                // load visit_failed; leave when it is raised
    | Open(dir: Dir)       // open the directory and start reading it
    | Scan(dir: Dir, entries: seq<Entry>, readFails: bool) // top of the entry loop: load visit_failed, read the next entry
    | Emit(event: Event)   // count and report; a rejected visit raises the flag next
    | Raise                // store visit_failed
    | Announce(dir: Dir)   // fetch_add on the outstanding count
    | Push(dir: Dir)       // queue push
    | Retract(dir: Dir)    // fetch_sub after a failed push
    | Inline(dir: Dir)     // allocate a fallback reader and process here

  datatype ExitReason = Stopped | SawFailure | Drained | NoReader

  datatype Worker =
    | Starting                        // task submitted, reader not created yet
    | Abandoning                      // no reader: about to raise the flag and leave
    | Polling                         // top of the loop: should_stop
    | Flagging                        // load visit_failed
    | Popping                         // queue pop
    | Counting                        // pop failed: load the outstanding count
    | Busy(todo: seq<Action>)         // popped a directory; [] means about to fetch_sub
    | Exited(reason: ExitReason)

  /**
   The shared state and the workers. `lost` and `noise` are history: the reference events
   given up so far, and the events no undisturbed walk has.
   */
  datatype State = State(
    queue: seq<Dir>,
    outstanding: int,
    visitFailed: bool,
    stats: Stats,
    workers: seq<Worker>,
    log: seq<Event>,
    lost: multiset<Event>,
    noise: multiset<Event>)

  /**
   Which worker moves, and how everything outside the program answers: the stop request,
   the position popped (None: the pop fails, even on a non-empty queue), whether a push
   into a queue with room succeeds, and whether a reader can be allocated.
   */
  datatype Choice = Choice(worker: nat, stop: bool, popAt: Option<nat>, pushOk: bool, allocOk: bool)

  // ---------- the actions for one entry ----------

  /** The body of the entry loop: what is reported of the entry, and the subdirectory to hand over. */
  function EntryPlan(x: Examined): seq<Action> {
    EmitAll(x.events) + if x.descend.Some? then [Announce(x.descend.value)] else []
  }

  function EmitAll(events: seq<Event>): seq<Action> {
    if events == [] then [] else [Emit(events[0])] + EmitAll(events[1..])
  }

  predicate Rejects(cfg: Config, ev: Event) {
    (ev.FileVisited? || ev.FolderVisited?) && !cfg.visit(ev.entry)
  }

  // ---------- what is still owed ----------

  /** The reference events an undisturbed execution of the action leads to. */
  function OwedBy(cfg: Config, action: Action): multiset<Event> {
    match action
    case Check => multiset{}
    case Raise => multiset{}
    case Emit(ev) => multiset{ev}
    case Open(dir) => multiset(DirTrace(cfg, dir))
    case Scan(dir, entries, readFails) => multiset(ScanTrace(cfg, dir, entries, readFails))
    case Announce(dir) => multiset(DirTrace(cfg, dir))
    case Push(dir) => multiset(DirTrace(cfg, dir))
    case Retract(dir) => multiset(DirTrace(cfg, dir))
    case Inline(dir) => multiset(DirTrace(cfg, dir))
  }

  function Owed(cfg: Config, todo: seq<Action>): multiset<Event> {
    if todo == [] then multiset{} else OwedBy(cfg, todo[0]) + Owed(cfg, todo[1..])
  }

  // ---------- steps ----------

  /** The shared-memory operations a step can consist of. */
  datatype Op =
    | Nothing
    | Enqueue(dir: Dir)
    | Dequeue(at: nat)
    | Adjust(delta: int)
    | RaiseFlag
    | Report(event: Event)
    | ReportNoReader(path: bytes)

  /** What a step does: one operation, the worker's next state, and the actions it gives up. */
  datatype Move = Move(op: Op, next: Worker, dropped: seq<Action>)

  /** The next step of a worker that is processing a directory. */
  function Perform(cfg: Config, capacity: nat, s: State, c: Choice, todo: seq<Action>): Move {
    if todo == [] then Move(Adjust(-1), Polling, [])
    else
      var rest := todo[1..];
      match todo[0]
      case Check =>
        if s.visitFailed then Move(Nothing, Busy([]), rest) else Move(Nothing, Busy(rest), [])
      case Open(dir) =>
        (match cfg.open(dir.path)
         case None => Move(Report(OpenFailed(dir.path)), Busy(rest), [])
         case Some(listing) =>
           Move(Report(Opened(dir.path)), Busy([Scan(dir, listing.entries, listing.readFails)] + rest), []))
      case Scan(dir, entries, readFails) =>
        if s.visitFailed then Move(Nothing, Busy([]), todo)
        else if entries == [] then
          Move(Nothing, Busy((if readFails then [Emit(ReadFailed(dir.path))] else []) + rest), [])
        else
          var x := Examine(cfg, dir, entries[0]);
          Move(Nothing, Busy(EntryPlan(x) + ([Scan(dir, entries[1..], readFails)] + rest)), [])
      case Emit(ev) =>
        if Rejects(cfg, ev) then Move(Report(ev), Busy([Raise]), rest) else Move(Report(ev), Busy(rest), [])
      case Raise => Move(RaiseFlag, Busy(rest), [])
      case Announce(dir) => Move(Adjust(1), Busy([Push(dir)] + rest), [])
      case Push(dir) =>
        if c.pushOk && |s.queue| < capacity then Move(Enqueue(dir), Busy(rest), [])
        else Move(Nothing, Busy([Retract(dir)] + rest), [])
      case Retract(dir) => Move(Adjust(-1), Busy([Inline(dir)] + rest), [])
      case Inline(dir) =>
        if c.allocOk then Move(Nothing, Busy([Check, Open(dir)] + rest), [])
        else Move(ReportNoReader(dir.path), Busy(rest), [Open(dir)])
  }

  /** The next step of any worker. */
  function Decide(cfg: Config, capacity: nat, s: State, c: Choice, w: Worker): Move {
    match w
    case Starting =>
      if c.allocOk then Move(Nothing, Polling, []) else Move(ReportNoReader(cfg.root), Abandoning, [])
    case Abandoning => Move(RaiseFlag, Exited(NoReader), [])
    case Polling => Move(Nothing, if c.stop then Exited(Stopped) else Flagging, [])
    case Flagging => Move(Nothing, if s.visitFailed then Exited(SawFailure) else Popping, [])
    case Popping =>
      if c.popAt.Some? && c.popAt.value < |s.queue|
      then Move(Dequeue(c.popAt.value), Busy([Check, Open(s.queue[c.popAt.value])]), [])
      else Move(Nothing, Counting, [])
    case Counting => Move(Nothing, if s.outstanding == 0 then Exited(Drained) else Polling, [])
    case Busy(todo) => Perform(cfg, capacity, s, c, todo)
    case Exited(_) => Move(Nothing, w, [])
  }

  function NewQueue(queue: seq<Dir>, op: Op): seq<Dir> {
    match op
    case Enqueue(dir) => queue + [dir]
    case Dequeue(k) => if k < |queue| then queue[..k] + queue[k + 1..] else queue
    case _ => queue
  }

  /** The events an operation adds to the log. */
  function Reported(op: Op): seq<Event> {
    match op
    case Report(ev) => [ev]
    case ReportNoReader(path) => [ReaderFailed(path)]
    case _ => []
  }

  /** A missing reader is an event that no undisturbed walk has. */
  function Noise(op: Op): multiset<Event> {
    if op.ReportNoReader? then multiset{ReaderFailed(op.path)} else multiset{}
  }

  function Apply(cfg: Config, s: State, i: nat, m: Move): State
    requires i < |s.workers|
  {
    State(
      NewQueue(s.queue, m.op),
      if m.op.Adjust? then s.outstanding + m.op.delta else s.outstanding,
      s.visitFailed || m.op.RaiseFlag?,
      if Reported(m.op) == [] then s.stats else Bump(s.stats, Reported(m.op)[0]),
      s.workers[i := m.next],
      s.log + Reported(m.op),
      s.lost + Owed(cfg, m.dropped),
      s.noise + Noise(m.op))
  }

  /** One step of the worker named by the choice; nothing happens when there is no such worker. */
  function Step(cfg: Config, capacity: nat, s: State, c: Choice): State {
    if c.worker < |s.workers|
    then Apply(cfg, s, c.worker, Decide(cfg, capacity, s, c, s.workers[c.worker]))
    else s
  }

  function Initial(cfg: Config, workers: nat): State
    requires cfg.root != []
  {
    State([At(cfg.root, 0)], 1, false, ZeroStats, seq(workers, _ => Starting), [], multiset{}, multiset{})
  }

  /** Any sequence of choices is a schedule; this is the state it leads to. */
  function Run(cfg: Config, capacity: nat, s: State, schedule: seq<Choice>): State {
    if schedule == [] then s
    else Step(cfg, capacity, Run(cfg, capacity, s, schedule[..|schedule| - 1]), schedule[|schedule| - 1])
  }

  predicate AllExited(s: State) {
    forall w :: w in s.workers ==> w.Exited?
  }

  /** No worker left because of a stop request and every reader allocation succeeded. */
  predicate Undisturbed(s: State) {
    Exited(Stopped) !in s.workers && s.noise == multiset{}
  }
}
