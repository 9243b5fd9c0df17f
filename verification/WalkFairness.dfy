/**
 Every fair run of the parallel walk ends (src/walk/bc_io_walk_parallel.c:267-338): as long as
 each worker keeps being scheduled and its pops on a non-empty queue do not fail for ever, all
 workers exit. Stop requests, failing pushes and missing readers may come at any time.
 */
module WalkFairness {
  import opened Bytes
  import opened WalkReference
  import opened WalkProtocol
  import opened WalkStats
  import opened WalkCounter
  import opened WalkTheorems
  import opened WalkTermination
  import BitMask

  /** An endless schedule. */
  type Schedule = nat -> Choice

  function StateAt(cfg: Config, capacity: nat, s: State, f: Schedule, n: nat): State {
    if n == 0 then s else Step(cfg, capacity, StateAt(cfg, capacity, s, f, n - 1), f(n - 1))
  }

  /** The first `n` choices. */
  function First(f: Schedule, n: nat): seq<Choice> {
    if n == 0 then [] else First(f, n - 1) + [f(n - 1)]
  }

  lemma {:induction false} StateAtIsRun(cfg: Config, capacity: nat, s: State, f: Schedule, n: nat)
    ensures StateAt(cfg, capacity, s, f, n) == Run(cfg, capacity, s, First(f, n))
  {
    if n > 0 {
      StateAtIsRun(cfg, capacity, s, f, n - 1);
      assert First(f, n)[..|First(f, n)| - 1] == First(f, n - 1);
    }
  }

  ghost predicate MovesAgain(f: Schedule, i: nat, n: nat) {
    exists k :: k >= n && f(k).worker == i
  }

  /** Every worker moves again and again. */
  ghost predicate Fair(f: Schedule, workers: nat) {
    forall i: nat, n: nat :: i < workers ==> MovesAgain(f, i, n)
  }

  lemma NextTurn(f: Schedule, workers: nat, i: nat, n: nat) returns (turn: nat)
    requires Fair(f, workers) && i < workers
    ensures turn >= n && f(turn).worker == i
  {
    assert MovesAgain(f, i, n);
    turn :| turn >= n && f(turn).worker == i;
  }

  /** Choice number `k` has worker `i` try to pop from a queue that is not empty. */
  predicate TriesAt(cfg: Config, capacity: nat, s: State, f: Schedule, k: nat, i: nat) {
    var t := StateAt(cfg, capacity, s, f, k);
    f(k).worker == i && i < |t.workers| && t.workers[i] == Popping && t.queue != []
  }

  /** And the pop takes an entry. */
  predicate TakesAt(cfg: Config, capacity: nat, s: State, f: Schedule, k: nat, i: nat) {
    TriesAt(cfg, capacity, s, f, k, i)
    && f(k).popAt.Some? && f(k).popAt.value < |StateAt(cfg, capacity, s, f, k).queue|
  }

  ghost predicate TriesAgain(cfg: Config, capacity: nat, s: State, f: Schedule, i: nat, n: nat) {
    exists k :: k >= n && TriesAt(cfg, capacity, s, f, k, i)
  }

  ghost predicate KeepsTrying(cfg: Config, capacity: nat, s: State, f: Schedule, i: nat, n: nat) {
    forall m :: m >= n ==> TriesAgain(cfg, capacity, s, f, i, m)
  }

  ghost predicate TakesAgain(cfg: Config, capacity: nat, s: State, f: Schedule, i: nat, n: nat) {
    exists k :: k >= n && TakesAt(cfg, capacity, s, f, k, i)
  }

  /** A worker that tries again and again to pop from a queue that is not empty takes something in the end. */
  ghost predicate PopsAreFair(cfg: Config, capacity: nat, s: State, f: Schedule) {
    forall i: nat, n: nat :: i < |s.workers| && KeepsTrying(cfg, capacity, s, f, i, n) ==> TakesAgain(cfg, capacity, s, f, i, n)
  }

  // ---------- one step ----------

  /** How many idle steps the worker is away from finding work or leaving. */
  function Distance(queue: seq<Dir>, w: Worker): nat {
    if queue != [] then
      match w case Counting => 3 case Polling => 2 case Flagging => 1 case _ => 0
    else
      match w case Polling => 3 case Flagging => 2 case Popping => 1 case _ => 0
  }

  /** Nobody has work: every worker is going round its loop or has left. */
  ghost predicate AllIdling(s: State) {
    forall w :: w in s.workers ==> Spinning(w) || w.Exited?
  }

  /** An idle step leaves the queue and the other workers alone, and the idlers idle. */
  lemma IdleStepKeeps(cfg: Config, capacity: nat, s: State, c: Choice)
    requires Idle(cfg, capacity, s, c)
    ensures var s' := Step(cfg, capacity, s, c);
            && s'.queue == s.queue && |s'.workers| == |s.workers|
            && (forall i :: 0 <= i < |s.workers| && i != c.worker ==> s'.workers[i] == s.workers[i])
            && (AllIdling(s) ==> AllIdling(s'))
  {
    if c.worker < |s.workers| {
      assert s.workers[c.worker] in s.workers;
    }
  }

  /** A worker that is neither spinning nor gone does something with its next step. */
  lemma ActiveIsNotIdle(cfg: Config, capacity: nat, s: State, c: Choice)
    requires c.worker < |s.workers|
    requires var w := s.workers[c.worker]; !w.Exited? && !Spinning(w)
    ensures !Idle(cfg, capacity, s, c)
  {
    var w := s.workers[c.worker];
    DecideCosts(cfg, capacity, s, c, w);
    if w.Busy? && w.todo != [] {
      var m := Decide(cfg, capacity, s, c, w);
      assert m.op.Nothing? && m.next.Busy? ==> m.next.todo != w.todo;
    }
  }

  /**
   With nobody at work, its own idle steps bring a spinning worker closer to trying to pop from a queue that is
   not empty, or to leaving; those of others do not matter.
   */
  lemma SpinGetsCloser(cfg: Config, capacity: nat, s: State, c: Choice, i: nat)
    requires Counted(capacity, s) && i < |s.workers| && Spinning(s.workers[i]) && AllIdling(s)
    requires Idle(cfg, capacity, s, c) && !(c.worker == i && s.workers[i] == Popping && s.queue != [])
    ensures var s' := Step(cfg, capacity, s, c);
            && |s'.workers| == |s.workers| && Spinning(s'.workers[i]) && AllIdling(s')
            && var before, after := Distance(s.queue, s.workers[i]), Distance(s'.queue, s'.workers[i]);
               if c.worker == i then after < before else after == before
  {
    IdleStepKeeps(cfg, capacity, s, c);
    if s.queue == [] {
      ZeroMeansQuiet(capacity, s);
    }
  }

  // ---------- progress ----------

  lemma {:induction false} StateAtCounts(cfg: Config, capacity: nat, s: State, f: Schedule, n: nat)
    requires Counted(capacity, s)
    ensures var t := StateAt(cfg, capacity, s, f, n); Counted(capacity, t) && |t.workers| == |s.workers|
  {
    hide Counted, Decide;
    if n > 0 {
      StateAtCounts(cfg, capacity, s, f, n - 1);
      StepCounts(cfg, capacity, StateAt(cfg, capacity, s, f, n - 1), f(n - 1));
    }
  }

  /** A worker with work to do uses up some of the budget when its turn comes, if nobody does before. */
  lemma {:induction false} ActiveSpends(cfg: Config, capacity: nat, s: State, f: Schedule, n: nat, i: nat, turn: nat)
    returns (m: nat)
    requires n <= turn && f(turn).worker == i
    requires var t := StateAt(cfg, capacity, s, f, n);
             i < |t.workers| && !t.workers[i].Exited? && !Spinning(t.workers[i])
    ensures n < m && BudgetAt(cfg, capacity, s, f, m) < BudgetAt(cfg, capacity, s, f, n)
    decreases turn - n
  {
    hide Step, Potential, Decide;
    var t := StateAt(cfg, capacity, s, f, n);
    m := n + 1;
    StepCosts(cfg, capacity, t, f(n));
    if f(n).worker == i {
      ActiveIsNotIdle(cfg, capacity, t, f(n));
    } else if Idle(cfg, capacity, t, f(n)) {
      IdleStepKeeps(cfg, capacity, t, f(n));
      m := ActiveSpends(cfg, capacity, s, f, n + 1, i, turn);
    }
  }

  /** Nobody is at work after `n` steps, and worker `i` is spinning. */
  ghost predicate Waiting(cfg: Config, capacity: nat, s: State, f: Schedule, n: nat, i: nat) {
    var t := StateAt(cfg, capacity, s, f, n);
    Counted(capacity, s) && i < |t.workers| == |s.workers| && Spinning(t.workers[i]) && AllIdling(t)
  }

  function DistanceAt(cfg: Config, capacity: nat, s: State, f: Schedule, n: nat, i: nat): nat {
    var t := StateAt(cfg, capacity, s, f, n);
    if i < |t.workers| then Distance(t.queue, t.workers[i]) else 0
  }

  function BudgetAt(cfg: Config, capacity: nat, s: State, f: Schedule, n: nat): nat {
    Potential(cfg, StateAt(cfg, capacity, s, f, n))
  }

  /** While nothing is spent, the wait goes on. */
  lemma WaitingStep(cfg: Config, capacity: nat, s: State, f: Schedule, n: nat, i: nat)
    requires Waiting(cfg, capacity, s, f, n, i)
    ensures BudgetAt(cfg, capacity, s, f, n + 1) < BudgetAt(cfg, capacity, s, f, n)
         || (BudgetAt(cfg, capacity, s, f, n + 1) == BudgetAt(cfg, capacity, s, f, n) && Waiting(cfg, capacity, s, f, n + 1, i))
    ensures BudgetAt(cfg, capacity, s, f, n + 1) < BudgetAt(cfg, capacity, s, f, n)
         || TriesAt(cfg, capacity, s, f, n, i)
         || var before, after := DistanceAt(cfg, capacity, s, f, n, i), DistanceAt(cfg, capacity, s, f, n + 1, i);
            if f(n).worker == i then after < before else after == before
    ensures TakesAt(cfg, capacity, s, f, n, i) ==> BudgetAt(cfg, capacity, s, f, n + 1) < BudgetAt(cfg, capacity, s, f, n)
  {
    hide Step, Potential, Counted, AllIdling, Distance, Spinning;
    var t := StateAt(cfg, capacity, s, f, n);
    assert TakesAt(cfg, capacity, s, f, n, i) ==> !Idle(cfg, capacity, t, f(n)) by {
      TakingIsNotIdle(cfg, capacity, t, f(n));
    }
    hide Decide, Idle;
    StepCosts(cfg, capacity, t, f(n));
    StateAtCounts(cfg, capacity, s, f, n);
    if Idle(cfg, capacity, t, f(n)) {
      IdleStepKeepsSpinner(cfg, capacity, t, f(n), i);
      if !TriesAt(cfg, capacity, s, f, n, i) {
        SpinGetsCloser(cfg, capacity, t, f(n), i);
      }
    }
  }

  lemma TakingIsNotIdle(cfg: Config, capacity: nat, s: State, c: Choice)
    ensures c.worker < |s.workers| && s.workers[c.worker] == Popping && c.popAt.Some? && c.popAt.value < |s.queue|
            ==> !Idle(cfg, capacity, s, c)
  {
  }

  lemma IdleStepKeepsSpinner(cfg: Config, capacity: nat, s: State, c: Choice, i: nat)
    requires i < |s.workers| && Spinning(s.workers[i]) && AllIdling(s) && Idle(cfg, capacity, s, c)
    ensures var s' := Step(cfg, capacity, s, c);
            |s'.workers| == |s.workers| && Spinning(s'.workers[i]) && AllIdling(s')
  {
    IdleStepKeeps(cfg, capacity, s, c);
  }

  /** A spinning worker comes to try a pop, unless some of the budget is used up before. */
  lemma {:induction false} SpinnerTries(cfg: Config, capacity: nat, s: State, f: Schedule, n: nat, i: nat, turn: nat)
    returns (k: nat)
    requires Fair(f, |s.workers|) && Waiting(cfg, capacity, s, f, n, i)
    requires n <= turn && f(turn).worker == i
    ensures n <= k && (BudgetAt(cfg, capacity, s, f, k) < BudgetAt(cfg, capacity, s, f, n) || TriesAt(cfg, capacity, s, f, k, i))
    decreases DistanceAt(cfg, capacity, s, f, n, i), turn - n
  {
    hide BudgetAt, DistanceAt, Potential, StateAt, AllIdling, Counted, Step, TriesAt;
    WaitingStep(cfg, capacity, s, f, n, i);
    if TriesAt(cfg, capacity, s, f, n, i) {
      return n;
    }
    if BudgetAt(cfg, capacity, s, f, n + 1) < BudgetAt(cfg, capacity, s, f, n) {
      return n + 1;
    }
    if f(n).worker == i {
      var next := NextTurn(f, |s.workers|, i, n + 1);
      k := SpinnerTries(cfg, capacity, s, f, n + 1, i, next);
    } else {
      k := SpinnerTries(cfg, capacity, s, f, n + 1, i, turn);
    }
  }

  /** Until some of the budget is used up, the wait goes on. */
  lemma {:induction false} StillWaiting(cfg: Config, capacity: nat, s: State, f: Schedule, n: nat, i: nat, m: nat)
    requires Waiting(cfg, capacity, s, f, n, i) && n <= m
    ensures BudgetAt(cfg, capacity, s, f, m) < BudgetAt(cfg, capacity, s, f, n)
         || (BudgetAt(cfg, capacity, s, f, m) == BudgetAt(cfg, capacity, s, f, n) && Waiting(cfg, capacity, s, f, m, i))
    decreases m - n
  {
    hide BudgetAt, Waiting;
    if n < m {
      StillWaiting(cfg, capacity, s, f, n, i, m - 1);
      if BudgetAt(cfg, capacity, s, f, m - 1) == BudgetAt(cfg, capacity, s, f, n) {
        WaitingStep(cfg, capacity, s, f, m - 1, i);
      } else {
        BudgetNeverGrows(cfg, capacity, s, f, m - 1);
      }
    }
  }

  lemma BudgetNeverGrows(cfg: Config, capacity: nat, s: State, f: Schedule, n: nat)
    ensures BudgetAt(cfg, capacity, s, f, n + 1) <= BudgetAt(cfg, capacity, s, f, n)
  {
    hide Step, Potential, Idle;
    StepCosts(cfg, capacity, StateAt(cfg, capacity, s, f, n), f(n));
  }

  ghost predicate Spends(cfg: Config, capacity: nat, s: State, f: Schedule, n: nat, m: nat) {
    n < m && BudgetAt(cfg, capacity, s, f, m) < BudgetAt(cfg, capacity, s, f, n)
  }

  /** With nobody at work, a spinning worker finds work or leaves in the end. */
  lemma SpinnerSpends(cfg: Config, capacity: nat, s: State, f: Schedule, n: nat, i: nat)
    requires Fair(f, |s.workers|) && PopsAreFair(cfg, capacity, s, f) && Waiting(cfg, capacity, s, f, n, i) && i < |s.workers|
    ensures exists m :: Spends(cfg, capacity, s, f, n, m)
  {
    hide BudgetAt, TriesAt, TakesAt, Waiting, Fair;
    if forall m :: !Spends(cfg, capacity, s, f, n, m) {
      forall m: nat | m >= n ensures TriesAgain(cfg, capacity, s, f, i, m) {
        TriesWithoutSpending(cfg, capacity, s, f, n, i, m);
      }
      assert KeepsTrying(cfg, capacity, s, f, i, n);
      assert TakesAgain(cfg, capacity, s, f, i, n);
      var k :| k >= n && TakesAt(cfg, capacity, s, f, k, i);
      assert !Spends(cfg, capacity, s, f, n, k) && !Spends(cfg, capacity, s, f, n, k + 1);
      StillWaiting(cfg, capacity, s, f, n, i, k);
      WaitingStep(cfg, capacity, s, f, k, i);
    }
  }

  lemma TriesWithoutSpending(cfg: Config, capacity: nat, s: State, f: Schedule, n: nat, i: nat, m: nat)
    requires Fair(f, |s.workers|) && Waiting(cfg, capacity, s, f, n, i) && i < |s.workers| && n <= m
    requires forall m :: !Spends(cfg, capacity, s, f, n, m)
    ensures TriesAgain(cfg, capacity, s, f, i, m)
  {
    hide BudgetAt, TriesAt, Waiting, Fair;
    assert !Spends(cfg, capacity, s, f, n, m);
    StillWaiting(cfg, capacity, s, f, n, i, m);
    var turn := NextTurn(f, |s.workers|, i, m);
    var k := SpinnerTries(cfg, capacity, s, f, m, i, turn);
    assert !Spends(cfg, capacity, s, f, n, k);
  }

  /** While somebody has not left, some of the budget is going to be used up. */
  lemma SomebodySpends(cfg: Config, capacity: nat, s: State, f: Schedule, n: nat)
    requires Counted(capacity, s) && Fair(f, |s.workers|) && PopsAreFair(cfg, capacity, s, f)
    requires !AllExited(StateAt(cfg, capacity, s, f, n))
    ensures exists m :: Spends(cfg, capacity, s, f, n, m)
  {
    hide StateAt, Potential, Counted, PopsAreFair;
    var t := StateAt(cfg, capacity, s, f, n);
    StateAtCounts(cfg, capacity, s, f, n);
    if i :| 0 <= i < |t.workers| && !t.workers[i].Exited? && !Spinning(t.workers[i]) {
      var turn := NextTurn(f, |s.workers|, i, n);
      var m := ActiveSpends(cfg, capacity, s, f, n, i, turn);
      assert Spends(cfg, capacity, s, f, n, m);
    } else {
      var w :| w in t.workers && !w.Exited?;
      var i :| 0 <= i < |t.workers| && t.workers[i] == w;
      SpinnerSpends(cfg, capacity, s, f, n, i);
    }
  }

  lemma {:induction false} FinishFrom(cfg: Config, capacity: nat, s: State, f: Schedule, n: nat) returns (end: nat)
    requires Counted(capacity, s) && Fair(f, |s.workers|) && PopsAreFair(cfg, capacity, s, f)
    ensures AllExited(StateAt(cfg, capacity, s, f, end))
    decreases BudgetAt(cfg, capacity, s, f, n)
  {
    hide StateAt, Potential, Counted, AllExited, PopsAreFair, BudgetAt;
    end := n;
    if !AllExited(StateAt(cfg, capacity, s, f, n)) {
      SomebodySpends(cfg, capacity, s, f, n);
      var m :| Spends(cfg, capacity, s, f, n, m);
      end := FinishFrom(cfg, capacity, s, f, m);
    }
  }

  // ---------- the results ----------

  /** Every fair run ends: after some number of steps all workers have exited. */
  lemma FairRunsFinish(cfg: Config, capacity: nat, workers: nat, f: Schedule) returns (n: nat)
    requires cfg.root != [] && capacity >= 1 && Fair(f, workers)
    requires PopsAreFair(cfg, capacity, Initial(cfg, workers), f)
    ensures AllExited(Run(cfg, capacity, Initial(cfg, workers), First(f, n)))
  {
    var s := Initial(cfg, workers);
    RunCounts(cfg, capacity, workers, []);
    n := FinishFrom(cfg, capacity, s, f, 0);
    StateAtIsRun(cfg, capacity, s, f, n);
  }

  /** No stop is requested and every reader can be allocated. */
  ghost predicate Calm(f: Schedule) {
    forall k :: !f(k).stop && f(k).allocOk
  }

  lemma {:induction false} CalmRunsAreUndisturbed(cfg: Config, capacity: nat, workers: nat, f: Schedule, n: nat)
    requires cfg.root != [] && Calm(f)
    ensures Undisturbed(StateAt(cfg, capacity, Initial(cfg, workers), f, n))
  {
    if n > 0 {
      CalmRunsAreUndisturbed(cfg, capacity, workers, f, n - 1);
      CalmStep(cfg, capacity, StateAt(cfg, capacity, Initial(cfg, workers), f, n - 1), f(n - 1));
    }
  }

  lemma CalmStep(cfg: Config, capacity: nat, s: State, c: Choice)
    requires !c.stop && c.allocOk && Undisturbed(s)
    ensures Undisturbed(Step(cfg, capacity, s, c))
  {
    if c.worker < |s.workers| {
      var w := s.workers[c.worker];
      assert w in s.workers;
      CalmMove(cfg, capacity, s, c, w);
      assert s.noise + multiset{} == s.noise;
    }
  }

  lemma CalmMove(cfg: Config, capacity: nat, s: State, c: Choice, w: Worker)
    requires !c.stop && c.allocOk
    ensures var m := Decide(cfg, capacity, s, c, w);
            !m.op.ReportNoReader? && (m.next == Exited(Stopped) ==> w == m.next)
  {
  }

  /**
   Total correctness: a fair run in which nothing outside goes wrong ends, and unless the recursive walk
   contains a visit that is rejected it has then performed exactly that walk and counted it.
   */
  lemma FairRunIsTheWalk(cfg: Config, capacity: nat, workers: nat, f: Schedule) returns (n: nat)
    requires cfg.root != [] && capacity >= 1 && workers >= 1 && Fair(f, workers) && Calm(f)
    requires PopsAreFair(cfg, capacity, Initial(cfg, workers), f)
    ensures var s := Run(cfg, capacity, Initial(cfg, workers), First(f, n));
            && AllExited(s) && Undisturbed(s)
            && (!s.visitFailed <==>
                  forall ev :: ev in Reference(cfg) && (ev.FileVisited? || ev.FolderVisited?) ==> cfg.visit(ev.entry))
            && (!s.visitFailed ==> multiset(s.log) == multiset(Reference(cfg)) && s.stats == Tally(Reference(cfg)))
  {
    n := FairRunsFinish(cfg, capacity, workers, f);
    StateAtIsRun(cfg, capacity, Initial(cfg, workers), f, n);
    CalmRunsAreUndisturbed(cfg, capacity, workers, f, n);
    VerdictIsScheduleFree(cfg, capacity, workers, First(f, n));
    if !Run(cfg, capacity, Initial(cfg, workers), First(f, n)).visitFailed {
      CompleteRunIsTheWalk(cfg, capacity, workers, First(f, n));
    }
  }

  // ---------- such runs exist ----------

  /** The workers take turns and nothing outside goes wrong. */
  function TakingTurns(workers: nat): Schedule
    requires workers >= 1
  {
    n => Choice(n % workers, false, Some(0), true, true)
  }

  lemma TurnsAreFair(workers: nat)
    requires workers >= 1
    ensures Fair(TakingTurns(workers), workers)
  {
    var f := TakingTurns(workers);
    forall i: nat, n: nat | i < workers ensures MovesAgain(f, i, n) {
      var k := n * workers + i;
      BitMask.ModuloIsUnique(k, workers, n, i);
      assert k >= n by {
        BitMask.MultiplesAreApart(workers, 0, n);
        TimesAtLeast(n, workers);
      }
      assert f(k).worker == i;
    }
  }

  lemma PopsOfTurnsAreFair(cfg: Config, capacity: nat, workers: nat)
    requires cfg.root != [] && workers >= 1
    ensures PopsAreFair(cfg, capacity, Initial(cfg, workers), TakingTurns(workers))
  {
    hide StateAt;
    var s, f := Initial(cfg, workers), TakingTurns(workers);
    forall i: nat, n: nat | i < |s.workers| && KeepsTrying(cfg, capacity, s, f, i, n)
      ensures TakesAgain(cfg, capacity, s, f, i, n)
    {
      assert TriesAgain(cfg, capacity, s, f, i, n);
      var k :| k >= n && TriesAt(cfg, capacity, s, f, k, i);
      assert TakesAt(cfg, capacity, s, f, k, i);
    }
  }

  lemma {:induction false} TimesAtLeast(n: nat, workers: nat)
    requires workers >= 1
    ensures n * workers >= n
  {
    if n > 0 {
      TimesAtLeast(n - 1, workers);
      assert n * workers == (n - 1) * workers + workers;
    }
  }

  /** For any filesystem there are complete, undisturbed runs: what is said of them is never said of nothing. */
  lemma CompleteRunsExist(cfg: Config, capacity: nat, workers: nat) returns (schedule: seq<Choice>)
    requires cfg.root != [] && capacity >= 1 && workers >= 1
    ensures var s := Run(cfg, capacity, Initial(cfg, workers), schedule); AllExited(s) && Undisturbed(s)
  {
    var f := TakingTurns(workers);
    TurnsAreFair(workers);
    PopsOfTurnsAreFair(cfg, capacity, workers);
    var n := FairRunIsTheWalk(cfg, capacity, workers, f);
    schedule := First(f, n);
  }
}
