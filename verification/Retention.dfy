// Whole runs in which polls and prunes alternate in any order.
module Retention {
  import opened Clock
  import opened StatusLog
  import opened UptimeSpec
  import opened Inventory
  import opened Compression
  import opened Pruning

  datatype Step = Polled(poll: Poll) | Pruned(cutoff: int)

  // The tables after a run; a prune only touches the history.
  function RunSteps(steps: seq<Step>): State {
    if steps == [] then State(map[], [])
    else
      var s := RunSteps(steps[..|steps| - 1]);
      match steps[|steps| - 1]
      case Polled(p) => Save(s, p)
      case Pruned(cutoff) => s.(history := Retained(s.history, cutoff))
  }

  // The same run with every prune left out.
  function Polls(steps: seq<Step>): seq<Poll> {
    if steps == [] then []
    else
      Polls(steps[..|steps| - 1]) + (if steps[|steps| - 1].Polled? then [steps[|steps| - 1].poll] else [])
  }

  // The latest cutoff of a run, if it pruned at all.
  function Horizon(steps: seq<Step>): Option<int> {
    if steps == [] then None
    else
      var before := Horizon(steps[..|steps| - 1]);
      match steps[|steps| - 1]
      case Polled(_) => before
      case Pruned(cutoff) => Some(if before.Some? then Max(before.value, cutoff) else cutoff)
  }

  // No prune reaches beyond a later poll.
  ghost predicate PrunesThePast(steps: seq<Step>) {
    forall i, j :: 0 <= i < j < |steps| && steps[i].Pruned? && steps[j].Polled? ==>
      steps[i].cutoff <= ToUnix(steps[j].poll.now)
  }

  function Kept(rows: seq<StatusRow>, horizon: Option<int>): seq<StatusRow> {
    if horizon.None? then rows else Retained(rows, horizon.value)
  }

  lemma {:induction false} RetainedConcat(a: seq<StatusRow>, b: seq<StatusRow>, cutoff: int)
    ensures Retained(a + b, cutoff) == Retained(a, cutoff) + Retained(b, cutoff)
  {
    if b == [] {
      assert a + b == a;
    } else {
      RetainedConcat(a, b[..|b| - 1], cutoff);
      assert (a + b)[..|a + b| - 1] == a + b[..|b| - 1];
    }
  }

  // Of two prunes the later cutoff decides, in either order.
  lemma {:induction false} RetainedTwice(rows: seq<StatusRow>, c: int, d: int)
    ensures Retained(Retained(rows, c), d) == Retained(rows, Max(c, d))
  {
    if rows != [] {
      var init, r := rows[..|rows| - 1], rows[|rows| - 1];
      var kept := Retained(init, c);
      RetainedTwice(init, c, d);
      assert (kept + [r])[..|kept|] == kept;
      assert kept + [] == kept;
    }
  }

  lemma {:induction false} RetainedFresh(changes: seq<StatusChange>, cutoff: int)
    requires forall c :: c in changes ==> cutoff <= ToUnix(c.changedAt)
    ensures Retained(RowsOf(changes), cutoff) == RowsOf(changes)
  {
    if changes != [] {
      assert changes[|changes| - 1] in changes;
      RetainedFresh(changes[..|changes| - 1], cutoff);
      var rows := RowsOf(changes[..|changes| - 1]);
      assert RowsOf(changes)[..|rows|] == rows;
    }
  }

  lemma PrefixPrunesThePast(steps: seq<Step>)
    requires steps != [] && PrunesThePast(steps)
    ensures PrunesThePast(steps[..|steps| - 1])
    ensures steps[|steps| - 1].Polled? ==>
      HorizonNotAfter(steps[..|steps| - 1], ToUnix(steps[|steps| - 1].poll.now))
  {
    var init := steps[..|steps| - 1];
    if steps[|steps| - 1].Polled? {
      HorizonIsACutoff(init);
    }
  }

  ghost predicate HorizonNotAfter(steps: seq<Step>, second: int) {
    Horizon(steps).Some? ==> Horizon(steps).value <= second
  }

  lemma {:induction false} HorizonIsACutoff(steps: seq<Step>)
    ensures Horizon(steps).Some? ==>
      exists i :: 0 <= i < |steps| && steps[i].Pruned? && steps[i].cutoff == Horizon(steps).value
  {
    if steps != [] {
      var init := steps[..|steps| - 1];
      HorizonIsACutoff(init);
      if Horizon(init).Some? {
        var i :| 0 <= i < |init| && init[i].Pruned? && init[i].cutoff == Horizon(init).value;
        assert steps[i].cutoff == Horizon(init).value;
      }
      if steps[|steps| - 1].Pruned? {
        assert steps[|steps| - 1].cutoff == steps[|steps| - 1].cutoff;
      }
    }
  }

  // Prunes never disturb what later polls do: the tables are those of the unpruned run, its history
  // cut once at the latest cutoff.
  lemma {:induction false} PrunedRun(steps: seq<Step>)
    requires PrunesThePast(steps)
    ensures RunSteps(steps).tunnels == Run(Polls(steps)).tunnels
    ensures RunSteps(steps).history == Kept(Run(Polls(steps)).history, Horizon(steps))
  {
    if steps != [] {
      var init, step := steps[..|steps| - 1], steps[|steps| - 1];
      PrefixPrunesThePast(steps);
      PrunedRun(init);
      var s, full, horizon := RunSteps(init), Run(Polls(init)), Horizon(init);
      match step
      case Polled(p) =>
        var polls := Polls(init) + [p];
        assert polls[..|polls| - 1] == Polls(init);
        assert Polls(steps) == polls && Run(polls) == Save(full, p);
        SaveKept(s, full, horizon, p);
      case Pruned(cutoff) =>
        assert Polls(steps) == Polls(init);
        if horizon.Some? {
          RetainedTwice(full.history, horizon.value, cutoff);
        }
    }
  }

  // A save appends the same rows to a history and to what a prune left of it.
  lemma SaveKept(s: State, full: State, horizon: Option<int>, p: Poll)
    requires s.tunnels == full.tunnels && s.history == Kept(full.history, horizon)
    requires horizon.Some? ==> horizon.value <= ToUnix(p.now)
    ensures Save(s, p).tunnels == Save(full, p).tunnels
    ensures Save(s, p).history == Kept(Save(full, p).history, horizon)
  {
    var changes := ChangesOf(s.tunnels, p.snapshot, p.now);
    if horizon.Some? {
      OwnIsOwnRows(s.tunnels, p.snapshot, "", p.now);
      hide ChangesOf, RowsOf, Own, OwnRows, Retained;
      RetainedFresh(changes, horizon.value);
      RetainedConcat(full.history, RowsOf(changes), horizon.value);
    }
  }

  // A poll up to the second of t listed the tunnel.
  ghost predicate EverListed(polls: seq<Poll>, id: string, t: int) {
    exists n :: 0 <= n < |polls| && id in Ids(polls[n].snapshot) && ToUnix(polls[n].now) <= ToUnix(t)
  }

  ghost predicate HasRowUpTo(log: seq<StatusChange>, t: int) {
    exists i :: 0 <= i < |log| && log[i].changedAt <= t
  }

  lemma KnownIff(log: seq<StatusChange>, t: int)
    requires Sorted(log)
    ensures StatusOf(log, t).Some? <==> HasRowUpTo(log, t)
  {
    CountSplits(log, t);
  }

  // With retention in the run, StatusAt still answers what one row per poll would answer if and only if
  // a row at or before t is left, or no poll up to t's second listed the tunnel.
  lemma PrunedRunStatusIff(steps: seq<Step>, id: string, t: int)
    requires PrunesThePast(steps) && NonDecreasing(Polls(steps)) && SettledRun(Polls(steps))
    ensures var log, polls := Log(RunSteps(steps).history, id), Polls(steps);
      StatusOf(log, t) == StatusOf(PollLog(polls, id), t) <==> HasRowUpTo(log, t) || !EverListed(polls, id, t)
  {
    var polls := Polls(steps);
    PrunedRun(steps);
    CompressionPreservesStatus(polls, id, t);
    PollLogMeans(polls, id, t);
    var left := Log(RunSteps(steps).history, id);
    LeftOver(Run(polls).history, Horizon(steps), id, t);
    KnownIff(left, t);
    hide StatusOf, Log, Run, PollLog, RunSteps, Polls, Horizon, Kept;
  }

  // What a cut leaves of a log knows a status or knows nothing, and never another one.
  lemma LeftOver(rows: seq<StatusRow>, horizon: Option<int>, id: string, t: int)
    ensures Sorted(Log(Kept(rows, horizon), id))
    ensures StatusOf(Log(Kept(rows, horizon), id), t) in {None, StatusOf(Log(rows, id), t)}
  {
    SelectSorts(rows, id, Any);
    if horizon.Some? {
      var j := PrunedLog(rows, horizon.value, id);
      hide Select, Log;
      CountTail(Log(rows, id), j, t);
    }
  }
}
