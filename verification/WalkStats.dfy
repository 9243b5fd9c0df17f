/** The four counters of a walk, as a function of the events it caused. */
module WalkStats {
  import opened WalkReference

  datatype Stats = Stats(filesVisited: nat, directoriesVisited: nat, filesSkipped: nat, errors: nat)

  const ZeroStats := Stats(0, 0, 0, 0)

  predicate IsError(ev: Event) {
    ev.OpenFailed? || ev.ReadFailed? || ev.PathTooLong? || ev.StatFailed? || ev.ReaderFailed?
  }

  /** The counter increments that accompany one event. */
  function Bump(stats: Stats, ev: Event): Stats {
    if IsError(ev) then stats.(errors := stats.errors + 1)
    else match ev
      case Opened(_) => stats.(directoriesVisited := stats.directoriesVisited + 1)
      case Filtered(_) => stats.(filesSkipped := stats.filesSkipped + 1)
      case FileVisited(_) => stats.(filesVisited := stats.filesVisited + 1)
      case _ => stats
  }

  function Tally(log: seq<Event>): Stats {
    if log == [] then ZeroStats else Bump(Tally(log[..|log| - 1]), log[|log| - 1])
  }

  lemma TallyAppend(log: seq<Event>, ev: Event)
    ensures Tally(log + [ev]) == Bump(Tally(log), ev)
  {
    assert (log + [ev])[..|log|] == log;
  }

  lemma BumpCommutes(stats: Stats, a: Event, b: Event)
    ensures Bump(Bump(stats, a), b) == Bump(Bump(stats, b), a)
  {
  }

  lemma {:induction false} TallyExtract(before: seq<Event>, ev: Event, after: seq<Event>)
    ensures Tally(before + [ev] + after) == Bump(Tally(before + after), ev)
    decreases |after|
  {
    if after == [] {
      assert before + [ev] + after == before + [ev] && before + after == before;
      TallyAppend(before, ev);
    } else {
      var init, last := after[..|after| - 1], after[|after| - 1];
      assert before + [ev] + after == (before + [ev] + init) + [last];
      assert before + after == (before + init) + [last];
      TallyAppend(before + [ev] + init, last);
      TallyAppend(before + init, last);
      TallyExtract(before, ev, init);
      BumpCommutes(Tally(before + init), ev, last);
    }
  }

  /** The counters depend only on which events happened, not on their order. */
  lemma {:induction false} TallyIsOrderFree(a: seq<Event>, b: seq<Event>)
    requires multiset(a) == multiset(b)
    ensures Tally(a) == Tally(b)
    decreases |a|
  {
    if a == [] {
      assert |multiset(b)| == |b| == 0;
    } else {
      var n := |a| - 1;
      var x := a[n];
      assert a == a[..n] + [x];
      assert x in multiset(b);
      var k :| 0 <= k < |b| && b[k] == x;
      assert b == b[..k] + [x] + b[k + 1..];
      assert multiset(a[..n]) == multiset(a) - multiset{x} == multiset(b[..k] + b[k + 1..]);
      TallyIsOrderFree(a[..n], b[..k] + b[k + 1..]);
      TallyExtract(b[..k], x, b[k + 1..]);
    }
  }
}
