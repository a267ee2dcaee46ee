// What the retention cutoff does to the answers about one tunnel.
module Pruning {
  import opened Clock
  import opened StatusLog
  import opened UptimeSpec
  import opened Inventory

  predicate HasRow(log: seq<StatusChange>, from: int, until: int) {
    exists i :: 0 <= i < |log| && from <= log[i].changedAt <= until
  }

  // Pruning cuts off the head of every tunnel's log.
  lemma {:induction false} PruneKeepsTail(rows: seq<StatusRow>, cutoff: int, id: string)
    ensures Log(Retained(rows, cutoff), id) == Select(rows, id, AtOrAfter(cutoff))
  {
    if rows != [] {
      var init, r := rows[..|rows| - 1], rows[|rows| - 1];
      PruneKeepsTail(init, cutoff, id);
      var kept := Retained(init, cutoff);
      assert (kept + [r])[..|kept|] == kept;
      assert kept + [] == kept;
    }
  }

  // A prune keeps each row that is not older than the cutoff as often as it is stored.
  lemma {:induction false} RetainedRows(rows: seq<StatusRow>, cutoff: int)
    ensures forall r :: multiset(Retained(rows, cutoff))[r] == if r.changedAt < cutoff then 0 else multiset(rows)[r]
  {
    if rows != [] {
      RetainedRows(rows[..|rows| - 1], cutoff);
      assert rows == rows[..|rows| - 1] + [rows[|rows| - 1]];
    }
  }

  lemma PrunedLog(rows: seq<StatusRow>, cutoff: int, id: string) returns (j: nat)
    ensures var log := Log(rows, id);
      && Sorted(log) && j <= |log| && Log(Retained(rows, cutoff), id) == log[j..]
      && forall i :: 0 <= i < |log| ==> (i < j <==> log[i].changedAt < FromUnix(cutoff))
  {
    var log := Log(rows, id);
    PruneKeepsTail(rows, cutoff, id);
    HistoryIsSuffix(rows, id, cutoff);
    SelectSorts(rows, id, Any);
    assert Sorted(log);
    hide Select, Log;
    j :| 0 <= j <= |log| && Log(Retained(rows, cutoff), id) == log[j..] && SplitsAt(log, j, cutoff);
  }

  lemma CountTail(log: seq<StatusChange>, j: nat, t: int)
    requires Sorted(log) && j <= |log|
    ensures Sorted(log[j..]) && Count(log[j..], t) == Max(0, Count(log, t) - j)
    ensures StatusOf(log[j..], t) == if j < Count(log, t) then StatusOf(log, t) else None
  {
    CountSplits(log, t);
    var k := Max(0, Count(log, t) - j);
    CountIs(log[j..], t, k);
  }

  // StatusAt survives a prune exactly when a retained row is in effect, or nothing was known anyway.
  lemma PruneStatusIff(rows: seq<StatusRow>, cutoff: int, id: string, t: int)
    ensures StatusOf(Log(Retained(rows, cutoff), id), t) == StatusOf(Log(rows, id), t)
      <==> || HasRow(Log(rows, id), FromUnix(cutoff), t)
           || !exists i :: 0 <= i < |Log(rows, id)| && Log(rows, id)[i].changedAt <= t
  {
    var j := PrunedLog(rows, cutoff, id);
    var log := Log(rows, id);
    hide Select, Log;
    TailStatusIff(log, j, cutoff, t);
  }

  lemma TailStatusIff(log: seq<StatusChange>, j: nat, cutoff: int, t: int)
    requires Sorted(log) && j <= |log|
    requires forall i :: 0 <= i < |log| ==> (i < j <==> log[i].changedAt < FromUnix(cutoff))
    ensures HasRow(log, FromUnix(cutoff), t) <==> j < Count(log, t)
    ensures StatusOf(log[j..], t) == StatusOf(log, t)
      <==> HasRow(log, FromUnix(cutoff), t) || !exists i :: 0 <= i < |log| && log[i].changedAt <= t
  {
    CountTail(log, j, t);
    CountSplits(log, t);
    var k := Count(log, t);
    if j < k {
      assert FromUnix(cutoff) <= log[j].changedAt <= t;
    }
    if k > 0 {
      assert log[k - 1].changedAt <= t;
    }
  }

  // UptimeFor is unchanged by a prune if and only if a row of [cutoff, windowStart] is left to start
  // from, no row of this tunnel went, or nothing was observed for any time and some row is left.
  lemma PruneUptimeIff(rows: seq<StatusRow>, cutoff: int, id: string, window: int, now: int)
    ensures var log := Log(rows, id);
      UptimeOf(Log(Retained(rows, cutoff), id), window, now) == UptimeOf(log, window, now)
      <==> || HasRow(log, FromUnix(cutoff), now - window)
           || (forall i :: 0 <= i < |log| ==> FromUnix(cutoff) <= log[i].changedAt)
           || (ObservedForNoTime(log, window, now) && exists i :: 0 <= i < |log| && FromUnix(cutoff) <= log[i].changedAt)
  {
    var j := PrunedLog(rows, cutoff, id);
    var log := Log(rows, id);
    hide Select, Log;
    TailUptimeIff(log, j, cutoff, window, now);
  }

  // The first known status lies at or after now, and nothing has moved since.
  predicate ObservedForNoTime(log: seq<StatusChange>, window: int, now: int) {
    log != [] && now <= EffectiveStart(log, now - window) && Transitions(log, now - window, now) == 0
  }

  lemma TailUptimeIff(log: seq<StatusChange>, j: nat, cutoff: int, window: int, now: int)
    requires Sorted(log) && j <= |log| && SplitsAt(log, j, cutoff)
    ensures UptimeOf(log[j..], window, now) == UptimeOf(log, window, now)
      <==> || HasRow(log, FromUnix(cutoff), now - window)
           || (forall i :: 0 <= i < |log| ==> FromUnix(cutoff) <= log[i].changedAt)
           || (ObservedForNoTime(log, window, now) && exists i :: 0 <= i < |log| && FromUnix(cutoff) <= log[i].changedAt)
  {
    TailStatusIff(log, j, cutoff, now - window);
    if j == 0 {
      assert log[j..] == log;
    } else {
      assert log[0].changedAt < FromUnix(cutoff);
      if EffectiveStart(log, now - window) < now {
        if HasRow(log, FromUnix(cutoff), now - window) {
          TailUptimeSame(log, j, window, now);
        } else {
          TailUptimeDiffers(log, j, cutoff, window, now);
        }
      } else {
        NoTimeIff(log, j, cutoff, window, now);
      }
    }
  }

  lemma NoTimeIff(log: seq<StatusChange>, j: nat, cutoff: int, window: int, now: int)
    requires Sorted(log) && 0 < j <= |log| && SplitsAt(log, j, cutoff) && now <= EffectiveStart(log, now - window)
    ensures UptimeOf(log[j..], window, now) == UptimeOf(log, window, now)
      <==> j < |log| && Transitions(log, now - window, now) == 0
    ensures HasRow(log, FromUnix(cutoff), now - window) ==> Transitions(log, now - window, now) == 0
  {
    var start := now - window;
    CountTail(log, j, start);
    CountTail(log, j, now);
    CountSplits(log, start);
    CountSplits(log, now);
    hide HealthyInstants, Count;
  }

  lemma TailUptimeSame(log: seq<StatusChange>, j: nat, window: int, now: int)
    requires Sorted(log) && j < Count(log, now - window) && EffectiveStart(log, now - window) < now
    ensures UptimeOf(log[j..], window, now) == UptimeOf(log, window, now)
  {
    var start := now - window;
    forall t | start <= t < now ensures StatusOf(log[j..], t) == StatusOf(log, t) {
      CountMonotone(log, start, t);
      CountTail(log, j, t);
    }
    CountTail(log, j, start);
    CountTail(log, j, now);
    CountMonotone(log, start, now);
    HealthyAgrees(log[j..], log, start, now);
    hide HealthyInstants, Count;
  }

  lemma TailUptimeDiffers(log: seq<StatusChange>, j: nat, cutoff: int, window: int, now: int)
    requires Sorted(log) && 0 < j <= |log| && Count(log, now - window) <= j
    requires forall i :: 0 <= i < |log| ==> (i < j <==> log[i].changedAt < FromUnix(cutoff))
    requires EffectiveStart(log, now - window) < now
    ensures UptimeOf(log[j..], window, now) != UptimeOf(log, window, now)
  {
    CountTail(log, j, now - window);
    CountSplits(log, now - window);
    var tail := log[j..];
    if tail != [] {
      assert tail[0] == log[j] && log[0].changedAt < log[j].changedAt;
    }
    hide HealthyInstants, Count;
  }

  // Otherwise the observed window starts at the first retained row, or nothing is observed at all.
  ghost predicate RestartsAtFirstRow(tail: seq<StatusChange>, log: seq<StatusChange>, window: int, now: int) {
    var u := UptimeOf(tail, window, now);
    if tail == [] then !u.observed
    else
      && u.observed && u.window == Max(0, now - tail[0].changedAt)
      && (u.window > 0 ==> u.healthyRatio == HealthyInstants(log, tail[0].changedAt, now) as real / u.window as real)
  }

  lemma TailHealthy(log: seq<StatusChange>, j: nat, now: int)
    requires Sorted(log) && j < |log|
    ensures HealthyInstants(log[j..], log[j].changedAt, now) == HealthyInstants(log, log[j].changedAt, now)
  {
    var from := log[j].changedAt;
    forall t | from <= t < now ensures StatusOf(log[j..], t) == StatusOf(log, t) {
      CountSplits(log, t);
      CountTail(log, j, t);
    }
    HealthyAgrees(log[j..], log, from, now);
  }

  lemma PruneOtherwise(rows: seq<StatusRow>, cutoff: int, id: string, window: int, now: int)
    requires !HasRow(Log(rows, id), FromUnix(cutoff), now - window)
    ensures RestartsAtFirstRow(Log(Retained(rows, cutoff), id), Log(rows, id), window, now)
  {
    var j := PrunedLog(rows, cutoff, id);
    var log := Log(rows, id);
    hide Select, Log;
    TailStatusIff(log, j, cutoff, now - window);
    TailRestarts(log, j, window, now);
  }

  lemma TailRestarts(log: seq<StatusChange>, j: nat, window: int, now: int)
    requires Sorted(log) && j <= |log| && Count(log, now - window) <= j
    ensures RestartsAtFirstRow(log[j..], log, window, now)
  {
    CountTail(log, j, now - window);
    if j < |log| {
      assert log[j..][0] == log[j];
      TailHealthy(log, j, now);
    }
    hide HealthyInstants, Count;
  }

  // A tunnel that turned healthy once, before the cutoff, is up for the whole window; pruned, it is unobserved.
  lemma BaselineLost(row: StatusRow, cutoff: int, window: int, now: int)
    requires row.status == HEALTHY && row.changedAt < cutoff
    requires 0 < window && FromUnix(row.changedAt) <= now - window
    ensures UptimeOf(Log([row], row.tunnelID), window, now) == Uptime(window, 1.0, 0, true)
    ensures UptimeOf(Log(Retained([row], cutoff), row.tunnelID), window, now) == Uptime(window, 0.0, 0, false)
  {
    OneRow(row, cutoff);
    hide Log, Select, Retained, UptimeOf, Count;
    AlwaysHealthy([Read(row)], window, now);
  }

  lemma OneRow(row: StatusRow, cutoff: int)
    requires row.changedAt < cutoff
    ensures Log([row], row.tunnelID) == [Read(row)]
    ensures Log(Retained([row], cutoff), row.tunnelID) == []
    ensures forall window, now :: UptimeOf([], window, now) == Uptime(window, 0.0, 0, false)
  {
    assert [row][..0] == [];
    assert Select([row], row.tunnelID, Any) == Insert(Select([], row.tunnelID, Any), Read(row));
    assert Retained([row], cutoff) == Retained([], cutoff) + [];
  }

  lemma AlwaysHealthy(log: seq<StatusChange>, window: int, now: int)
    requires |log| == 1 && log[0].status == HEALTHY && 0 < window && log[0].changedAt <= now - window
    ensures UptimeOf(log, window, now) == Uptime(window, 1.0, 0, true)
  {
    CountIs(log, now - window, 1);
    CountIs(log, now, 1);
    Segment(log, 1, now - window, now);
    ShareBounds(HealthyInstants(log, now - window, now), window);
    hide HealthyInstants, Count;
  }
}
