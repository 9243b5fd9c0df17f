/**
 What every run of the parallel walk guarantees, for any number of workers, any queue
 capacity of at least one and any interleaving.
 */
module WalkTheorems {
  import opened WalkReference
  import opened WalkStats
  import opened WalkProtocol
  import opened WalkConservation
  import opened WalkCounter
  import opened WalkFailure

  /** The trace of the undisturbed recursive walk. */
  ghost function Reference(cfg: Config): seq<Event>
    requires cfg.root != []
  {
    DirTrace(cfg, At(cfg.root, 0))
  }

  /** Everything the invariants say about the state a schedule leads to. */
  lemma RunInvariant(cfg: Config, capacity: nat, workers: nat, schedule: seq<Choice>)
    requires cfg.root != [] && capacity >= 1
    ensures var s := Run(cfg, capacity, Initial(cfg, workers), schedule);
            Conserved(cfg, s) && Counted(capacity, s) && Explained(cfg, s) && |s.workers| == workers
  {
    RunConserves(cfg, capacity, workers, schedule);
    RunCounts(cfg, capacity, workers, schedule);
    RunExplained(cfg, capacity, workers, schedule);
    RunKeepsWorkers(cfg, capacity, workers, schedule);
  }

  lemma {:induction false} RunKeepsWorkers(cfg: Config, capacity: nat, workers: nat, schedule: seq<Choice>)
    requires cfg.root != []
    ensures |Run(cfg, capacity, Initial(cfg, workers), schedule).workers| == workers
  {
    if schedule != [] {
      RunKeepsWorkers(cfg, capacity, workers, schedule[..|schedule| - 1]);
    }
  }

  // ---------- the counter ----------

  const INT_MAX: nat := 0x7FFF_FFFF

  /**
   The meaning of the count in every reachable state, and its range. The counter is an int while the queue's
   capacity is a size_t: it fits when capacity plus two for each worker does.
   */
  lemma OutstandingCount(cfg: Config, capacity: nat, workers: nat, schedule: seq<Choice>)
    requires cfg.root != [] && capacity >= 1
    ensures var s := Run(cfg, capacity, Initial(cfg, workers), schedule);
            && s.outstanding == |s.queue| + Held(s.workers)
            && 0 <= s.outstanding <= capacity + 2 * workers
            && (capacity + 2 * workers <= INT_MAX ==> s.outstanding <= INT_MAX)
            && (s.outstanding == 0 <==> Quiet(s))
  {
    RunInvariant(cfg, capacity, workers, schedule);
    OutstandingIsBounded(capacity, Run(cfg, capacity, Initial(cfg, workers), schedule));
    ZeroMeansQuiet(capacity, Run(cfg, capacity, Initial(cfg, workers), schedule));
  }

  // ---------- completeness ----------

  /**
   As soon as one worker has left through the counter, the whole reference walk has been
   performed, unless a visit was rejected or a reader could not be allocated. Stop
   requests seen by other workers do not matter.
   */
  lemma DrainedMeansDone(cfg: Config, capacity: nat, workers: nat, schedule: seq<Choice>)
    requires cfg.root != [] && capacity >= 1
    requires var s := Run(cfg, capacity, Initial(cfg, workers), schedule);
             Exited(Drained) in s.workers && !Failing(s) && s.noise == multiset{}
    ensures var s := Run(cfg, capacity, Initial(cfg, workers), schedule);
            multiset(s.log) == multiset(Reference(cfg)) && s.stats == Tally(Reference(cfg))
  {
    var s := Run(cfg, capacity, Initial(cfg, workers), schedule);
    RunInvariant(cfg, capacity, workers, schedule);
    ZeroMeansQuiet(capacity, s);
    QuietOwesNothing(cfg, s);
    TallyIsOrderFree(s.log, Reference(cfg));
  }

  lemma QuietOwesNothing(cfg: Config, s: State)
    requires cfg.root != [] && Conserved(cfg, s) && Quiet(s) && s.lost == s.noise == multiset{}
    ensures multiset(s.log) == multiset(Reference(cfg))
  {
    NoBusyOwesNothing(cfg, s.workers);
    assert OwedByQueue(cfg, s.queue) == multiset{};
    var done, reference := multiset(s.log), multiset(Reference(cfg));
    assert done == done + multiset{} + multiset{} + multiset{};
    assert reference == reference + multiset{};
  }

  lemma SomebodyDrained(cfg: Config, s: State)
    requires AllExited(s) && |s.workers| >= 1 && Exited(Stopped) !in s.workers
    requires Explained(cfg, s) && !s.visitFailed
    ensures Exited(Drained) in s.workers && !Failing(s)
  {
    assert s.workers[0] in s.workers;
    assert s.workers[0].Exited?;
    match s.workers[0].reason
    case Drained =>
    case Stopped =>
    case SawFailure =>
    case NoReader =>
  }

  /**
   The main theorem: a run in which every worker has exited, with no stop, no rejected
   visit and no missing reader, performed exactly the events of the recursive walk.
   */
  lemma CompleteRunIsTheWalk(cfg: Config, capacity: nat, workers: nat, schedule: seq<Choice>)
    requires cfg.root != [] && capacity >= 1 && workers >= 1
    requires var s := Run(cfg, capacity, Initial(cfg, workers), schedule);
             AllExited(s) && Undisturbed(s) && !s.visitFailed
    ensures var s := Run(cfg, capacity, Initial(cfg, workers), schedule);
            multiset(s.log) == multiset(Reference(cfg)) && s.stats == Tally(Reference(cfg))
  {
    RunInvariant(cfg, capacity, workers, schedule);
    SomebodyDrained(cfg, Run(cfg, capacity, Initial(cfg, workers), schedule));
    DrainedMeansDone(cfg, capacity, workers, schedule);
  }

  // ---------- failures ----------

  /** In every state of every run, failed or not, nothing is done that the reference walk does not do as often. */
  lemma NeverMoreThanTheWalk(cfg: Config, capacity: nat, workers: nat, schedule: seq<Choice>)
    requires cfg.root != [] && capacity >= 1
    ensures var s := Run(cfg, capacity, Initial(cfg, workers), schedule);
            multiset(s.log) <= multiset(Reference(cfg)) + s.noise
  {
    RunInvariant(cfg, capacity, workers, schedule);
  }

  /**
   The verdict does not depend on the schedule: when all workers have exited undisturbed,
   the walk has failed exactly when the recursive walk contains a visit that is rejected.
   */
  lemma VerdictIsScheduleFree(cfg: Config, capacity: nat, workers: nat, schedule: seq<Choice>)
    requires cfg.root != [] && capacity >= 1 && workers >= 1
    requires var s := Run(cfg, capacity, Initial(cfg, workers), schedule); AllExited(s) && Undisturbed(s)
    ensures Run(cfg, capacity, Initial(cfg, workers), schedule).visitFailed <==> RejectedIn(cfg, Reference(cfg))
    ensures !Run(cfg, capacity, Initial(cfg, workers), schedule).visitFailed <==>
              forall ev :: ev in Reference(cfg) && (ev.FileVisited? || ev.FolderVisited?) ==> cfg.visit(ev.entry)
  {
    NoRejectionMeansAccepted(cfg, Reference(cfg));
    var s := Run(cfg, capacity, Initial(cfg, workers), schedule);
    RunInvariant(cfg, capacity, workers, schedule);
    NeverMoreThanTheWalk(cfg, capacity, workers, schedule);
    if s.visitFailed {
      var ev :| ev in s.log && Rejects(cfg, ev);
      assert ev in multiset(s.log);
      assert ev in multiset(Reference(cfg));
    } else {
      CompleteRunIsTheWalk(cfg, capacity, workers, schedule);
      SomebodyDrained(cfg, s);
      RejectionIsOrderFree(cfg, s.log, Reference(cfg));
    }
  }

  lemma RejectionIsOrderFree(cfg: Config, a: seq<Event>, b: seq<Event>)
    requires multiset(a) == multiset(b)
    ensures RejectedIn(cfg, a) <==> RejectedIn(cfg, b)
  {
    assert forall ev :: ev in a <==> ev in multiset(a);
    assert forall ev :: ev in b <==> ev in multiset(b);
  }
}
