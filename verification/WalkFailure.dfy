/**
 How a rejected visit spreads (src/walk/bc_io_walk_parallel.c:85-106, 199-209, 258-273):
 the flag goes up exactly when some visit was rejected or some reader was missing, and
 only then is reference work given up. Also: the counters always match the log.
 */
module WalkFailure {
  import opened WalkReference
  import opened WalkStats
  import opened WalkProtocol
  import opened WalkCounter

  /** The flag is up, or a worker is about to raise it. */
  ghost predicate Failing(s: State) {
    s.visitFailed || Busy([Raise]) in s.workers || Abandoning in s.workers
  }

  ghost predicate RejectedIn(cfg: Config, log: seq<Event>) {
    exists ev :: ev in log && Rejects(cfg, ev)
  }

  /** No rejected visit in the log: the callback accepted every entry it was shown. */
  lemma NoRejectionMeansAccepted(cfg: Config, log: seq<Event>)
    ensures !RejectedIn(cfg, log) <==>
              forall ev :: ev in log && (ev.FileVisited? || ev.FolderVisited?) ==> cfg.visit(ev.entry)
  {
  }

  ghost predicate Explained(cfg: Config, s: State) {
    && (RejectedIn(cfg, s.log) ==> Failing(s))
    && (Failing(s) ==> RejectedIn(cfg, s.log) || s.noise != multiset{})
    && (s.lost != multiset{} ==> Failing(s) || s.noise != multiset{})
    && (Exited(SawFailure) in s.workers || Exited(NoReader) in s.workers ==> s.visitFailed)
    && s.stats == Tally(s.log)
    && (forall w :: w in s.workers ==> TidyWorker(w))
  }

  // ---------- one move ----------

  ghost predicate Raising(w: Worker) {
    w == Busy([Raise]) || w == Abandoning
  }

  /** A rejection makes the worker raise the flag next, and then it does; leaving over a failure needs the flag. */
  ghost predicate Reacts(cfg: Config, s: State, w: Worker, m: Move) {
    && (RejectedIn(cfg, Reported(m.op)) ==> Raising(m.next))
    && (Raising(w) ==> m.op.RaiseFlag?)
    && (m.next == Exited(SawFailure) ==> s.visitFailed || w == m.next)
    && (m.next == Exited(NoReader) ==> m.op.RaiseFlag? || w == m.next)
  }

  /** Raising the flag and giving up work have a cause. */
  ghost predicate HasCause(cfg: Config, s: State, w: Worker, m: Move) {
    && (Raising(m.next) ==> RejectedIn(cfg, Reported(m.op)) || m.op.ReportNoReader?)
    && (m.op.RaiseFlag? ==> Raising(w))
    && (m.dropped != [] ==> s.visitFailed || Raising(m.next) || m.op.ReportNoReader?)
  }

  lemma DecideReacts(cfg: Config, capacity: nat, s: State, c: Choice, w: Worker)
    ensures Reacts(cfg, s, w, Decide(cfg, capacity, s, c, w))
  {
    var m := Decide(cfg, capacity, s, c, w);
    assert m.op.Report? && (w.Busy? && w.todo != [] && w.todo[0].Emit?) ==> Reported(m.op)[0] == w.todo[0].event;
  }

  /** Only a rejected visit puts a processing worker on its way to raising the flag. */
  lemma OnlyRejectionRaises(cfg: Config, capacity: nat, s: State, c: Choice, todo: seq<Action>)
    requires Tidy(todo)
    ensures var next := Perform(cfg, capacity, s, c, todo).next;
            next.Busy? && next.todo != [] && next.todo[0].Raise? ==>
              todo != [] && todo[0].Emit? && Rejects(cfg, todo[0].event)
  {
    if todo != [] {
      PlainIsTidy(todo[1..]);
      if todo[0].Scan? && todo[0].entries != [] {
        EntryPlanIsPlain(Examine(cfg, todo[0].dir, todo[0].entries[0]));
      }
    }
  }

  lemma DecideHasCause(cfg: Config, capacity: nat, s: State, c: Choice, w: Worker)
    requires TidyWorker(w)
    ensures HasCause(cfg, s, w, Decide(cfg, capacity, s, c, w))
  {
    var m := Decide(cfg, capacity, s, c, w);
    if w.Busy? {
      OnlyRejectionRaises(cfg, capacity, s, c, w.todo);
      if m.next == Busy([Raise]) {
        assert m.next.todo[0] == Raise;
        assert Reported(m.op) == [w.todo[0].event];
      }
    }
  }

  // ---------- the whole state ----------

  lemma RaisingStays(cfg: Config, s: State, i: nat, m: Move, w: Worker)
    requires i < |s.workers| && w in s.workers && Raising(w)
    requires Reacts(cfg, s, s.workers[i], m) && !m.op.RaiseFlag?
    ensures w in Apply(cfg, s, i, m).workers
  {
    var k :| 0 <= k < |s.workers| && s.workers[k] == w;
    assert Apply(cfg, s, i, m).workers[k] == w;
  }

  lemma FailingStays(cfg: Config, s: State, i: nat, m: Move)
    requires i < |s.workers| && Failing(s) && Reacts(cfg, s, s.workers[i], m)
    ensures Failing(Apply(cfg, s, i, m))
  {
    if !s.visitFailed && !m.op.RaiseFlag? {
      RaisingStays(cfg, s, i, m, if Abandoning in s.workers then Abandoning else Busy([Raise]));
    }
  }

  lemma ApplyKeepsReacting(cfg: Config, s: State, i: nat, m: Move)
    requires i < |s.workers| && Explained(cfg, s) && Reacts(cfg, s, s.workers[i], m)
    ensures var s' := Apply(cfg, s, i, m);
            && (RejectedIn(cfg, s'.log) ==> Failing(s'))
            && (Exited(SawFailure) in s'.workers || Exited(NoReader) in s'.workers ==> s'.visitFailed)
  {
    var s' := Apply(cfg, s, i, m);
    if RejectedIn(cfg, s'.log) {
      var ev :| ev in s'.log && Rejects(cfg, ev);
      if ev in s.log {
        FailingStays(cfg, s, i, m);
      } else {
        assert ev in Reported(m.op);
        assert s'.workers[i] == m.next;
      }
    }
  }

  lemma ApplyKeepsCauses(cfg: Config, s: State, i: nat, m: Move)
    requires i < |s.workers| && Explained(cfg, s) && HasCause(cfg, s, s.workers[i], m)
    ensures var s' := Apply(cfg, s, i, m);
            Failing(s') ==> RejectedIn(cfg, s'.log) || s'.noise != multiset{}
  {
    var s' := Apply(cfg, s, i, m);
    assert s.workers[i] in s.workers;
    if Failing(s') {
      if Failing(s) {
        KeepsRejection(cfg, s.log, Reported(m.op));
        NoiseStays(s.noise, m.op);
      } else {
        assert Raising(m.next);
        KeepsRejection(cfg, s.log, Reported(m.op));
        NoiseStays(s.noise, m.op);
      }
    }
  }

  lemma KeepsRejection(cfg: Config, log: seq<Event>, more: seq<Event>)
    ensures RejectedIn(cfg, log) || RejectedIn(cfg, more) ==> RejectedIn(cfg, log + more)
  {
    if RejectedIn(cfg, log) {
      var ev :| ev in log && Rejects(cfg, ev);
      assert ev in log + more;
    } else if RejectedIn(cfg, more) {
      var ev :| ev in more && Rejects(cfg, ev);
      assert ev in log + more;
    }
  }

  lemma NoiseStays(noise: multiset<Event>, op: Op)
    ensures noise != multiset{} || op.ReportNoReader? ==> noise + Noise(op) != multiset{}
  {
    if op.ReportNoReader? {
      assert (noise + Noise(op))[ReaderFailed(op.path)] > 0;
    } else {
      assert noise + Noise(op) == noise;
    }
  }

  lemma ApplyKeepsLosses(cfg: Config, s: State, i: nat, m: Move)
    requires i < |s.workers| && Explained(cfg, s)
    requires Reacts(cfg, s, s.workers[i], m) && HasCause(cfg, s, s.workers[i], m)
    ensures var s' := Apply(cfg, s, i, m);
            s'.lost != multiset{} ==> Failing(s') || s'.noise != multiset{}
  {
    var s' := Apply(cfg, s, i, m);
    NoiseStays(s.noise, m.op);
    assert s'.workers[i] == m.next;
    if Failing(s) {
      FailingStays(cfg, s, i, m);
    }
    if m.dropped == [] {
      assert s'.lost == s.lost;
    }
  }

  lemma ApplyKeepsStats(cfg: Config, s: State, i: nat, m: Move)
    requires i < |s.workers| && s.stats == Tally(s.log)
    ensures var s' := Apply(cfg, s, i, m); s'.stats == Tally(s'.log)
  {
    if Reported(m.op) == [] {
      assert s.log + Reported(m.op) == s.log;
    } else {
      TallyAppend(s.log, Reported(m.op)[0]);
    }
  }

  lemma StepExplained(cfg: Config, capacity: nat, s: State, c: Choice)
    requires Explained(cfg, s) && |s.queue| <= capacity
    ensures Explained(cfg, Step(cfg, capacity, s, c))
  {
    if c.worker < |s.workers| {
      var w := s.workers[c.worker];
      assert w in s.workers;
      var m := Decide(cfg, capacity, s, c, w);
      DecideReacts(cfg, capacity, s, c, w);
      DecideHasCause(cfg, capacity, s, c, w);
      DecideCounts(cfg, capacity, s, c, w);
      assert TidyWorker(m.next);
      hide Decide, Reacts, HasCause, TidyWorker, WellCounted, Owed;
      ApplyKeepsReacting(cfg, s, c.worker, m);
      ApplyKeepsCauses(cfg, s, c.worker, m);
      ApplyKeepsLosses(cfg, s, c.worker, m);
      ApplyKeepsStats(cfg, s, c.worker, m);
    }
  }

  /** In every state of every run the flag, the losses and the counters are accounted for. */
  lemma {:induction false} RunExplained(cfg: Config, capacity: nat, workers: nat, schedule: seq<Choice>)
    requires cfg.root != [] && capacity >= 1
    ensures Explained(cfg, Run(cfg, capacity, Initial(cfg, workers), schedule))
  {
    if schedule != [] {
      var init := schedule[..|schedule| - 1];
      RunExplained(cfg, capacity, workers, init);
      RunCounts(cfg, capacity, workers, init);
      StepExplained(cfg, capacity, Run(cfg, capacity, Initial(cfg, workers), init), schedule[|schedule| - 1]);
    }
  }
}
