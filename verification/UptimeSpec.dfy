// What UptimeFor reports, stated through the status in effect at every instant.
module UptimeSpec {
  import opened Clock
  import opened StatusLog

  datatype Uptime = Uptime(window: int, healthyRatio: real, changes: int, observed: bool)

  // The window start, moved to the first row when nothing is known there.
  function EffectiveStart(log: seq<StatusChange>, windowStart: int): int
    requires log != []
  {
    if StatusOf(log, windowStart).Some? then windowStart else log[0].changedAt
  }

  // Rows up to now that are not the baseline itself.
  function Transitions(log: seq<StatusChange>, windowStart: int, now: int): int {
    Max(0, Count(log, now) - Max(1, Count(log, windowStart)))
  }

  function UptimeOf(log: seq<StatusChange>, window: int, now: int): Uptime {
    if log == [] then Uptime(window, 0.0, 0, false)
    else
      var start := EffectiveStart(log, now - window);
      var changes := Transitions(log, now - window, now);
      if now <= start then Uptime(0, 0.0, changes, true)
      else Uptime(now - start, HealthyInstants(log, start, now) as real / (now - start) as real, changes, true)
  }

  // The rows that count as changes: up to now, after the window start when a status is known there, and
  // otherwise after the first row.
  ghost function Counted(log: seq<StatusChange>, windowStart: int, now: int): set<int> {
    set i | 0 <= i < |log| && log[i].changedAt <= now
      && (if StatusOf(log, windowStart).Some? then windowStart < log[i].changedAt else 0 < i)
  }

  // What a report says about a log, instant by instant and row by row.
  ghost predicate Reports(u: Uptime, log: seq<StatusChange>, window: int, now: int) {
    if log == [] then u == Uptime(window, 0.0, 0, false)
    else
      var start := if StatusOf(log, now - window).Some? then now - window else log[0].changedAt;
      && u.observed && u.window == (if start < now then now - start else 0)
      && u.changes == |Counted(log, now - window, now)|
      && u.healthyRatio * u.window as real == |HealthySet(log, start, now)| as real
      && (u.window == 0 ==> u.healthyRatio == 0.0)
  }

  lemma CountedIs(log: seq<StatusChange>, windowStart: int, now: int)
    requires Sorted(log) && log != []
    ensures |Counted(log, windowStart, now)| == Transitions(log, windowStart, now)
  {
    CountSplits(log, now);
    CountSplits(log, windowStart);
    var lo, hi := Max(1, Count(log, windowStart)), Count(log, now);
    RangeSize(lo, hi);
    hide Count, Range;
    assert Counted(log, windowStart, now) == Range(lo, hi);
  }

  ghost function Range(lo: int, hi: int): set<int>
    decreases hi - lo
  {
    if hi <= lo then {} else Range(lo, hi - 1) + {hi - 1}
  }

  lemma {:induction false} RangeSize(lo: int, hi: int)
    ensures |Range(lo, hi)| == Max(0, hi - lo)
    ensures forall i :: i in Range(lo, hi) <==> lo <= i < hi
    decreases hi - lo
  {
    if lo < hi {
      RangeSize(lo, hi - 1);
    }
  }

  // The report is the exact integral over the clamped window.
  lemma UptimeReports(log: seq<StatusChange>, window: int, now: int)
    requires Sorted(log)
    ensures Reports(UptimeOf(log, window, now), log, window, now)
  {
    if log != [] {
      hide HealthyInstants, StatusOf, Transitions, Counted, HealthySet;
      var start := EffectiveStart(log, now - window);
      CountedIs(log, now - window, now);
      HealthyIsSet(log, start, now);
      NoInstants(log, start, now);
      if start < now {
        RatioTimesWindow(HealthyInstants(log, start, now), now - start);
      }
    }
  }

  lemma NoInstants(log: seq<StatusChange>, a: int, b: int)
    ensures b <= a ==> HealthySet(log, a, b) == {}
  {
  }

  // Something is known from the first row on.
  lemma FirstRow(log: seq<StatusChange>, t: int)
    requires Sorted(log) && log != []
    ensures StatusOf(log, t).Some? <==> log[0].changedAt <= t
  {
    CountSplits(log, t);
  }

  // Two logs that mean the same report the same window and ratio.
  lemma SameMeaningSameUptime(log: seq<StatusChange>, other: seq<StatusChange>, window: int, now: int)
    requires Sorted(log) && Sorted(other)
    requires forall t :: StatusOf(log, t) == StatusOf(other, t)
    ensures UptimeOf(log, window, now).(changes := 0) == UptimeOf(other, window, now).(changes := 0)
  {
    if log != [] {
      FirstRow(log, log[0].changedAt);
      assert StatusOf(other, log[0].changedAt).Some?;
    }
    if other != [] {
      FirstRow(other, other[0].changedAt);
      assert StatusOf(log, other[0].changedAt).Some?;
    }
    if log != [] && other != [] {
      FirstRow(log, other[0].changedAt);
      FirstRow(other, log[0].changedAt);
      assert log[0].changedAt == other[0].changedAt;
      HealthyAgrees(log, other, EffectiveStart(log, now - window), now);
    }
  }

  // The ratio is a share, and it is full exactly when no observed instant was unhealthy.
  lemma RatioIsShare(log: seq<StatusChange>, window: int, now: int)
    ensures var u := UptimeOf(log, window, now);
      0.0 <= u.healthyRatio <= 1.0
    ensures var u := UptimeOf(log, window, now);
      u.observed && u.window > 0 ==>
        (u.healthyRatio == 1.0 <==> forall s :: now - u.window <= s < now ==> StatusOf(log, s) == Some(HEALTHY))
  {
    var u := UptimeOf(log, window, now);
    if u.observed && u.window > 0 {
      var start := now - u.window;
      HealthyBounded(log, start, now);
      var h := HealthyInstants(log, start, now);
      ShareBounds(h, u.window);
    }
  }

  lemma ShareBounds(h: nat, w: int)
    requires 0 < w && h <= w
    ensures 0.0 <= h as real / w as real <= 1.0
    ensures h as real / w as real == 1.0 <==> h == w
  {
    var q := h as real / w as real;
    assert q * w as real == h as real;
    assert h < w ==> (h as real) < w as real;
  }

  // The healthy time a report stands for.
  function HealthyTime(u: Uptime): real {
    u.healthyRatio * u.window as real
  }

  lemma HealthyTimeIsIntegral(log: seq<StatusChange>, start: int, now: int)
    requires start < now && StatusOf(log, start).Some?
    ensures log != []
    ensures UptimeOf(log, now - start, now).window == now - start
    ensures HealthyTime(UptimeOf(log, now - start, now)) == HealthyInstants(log, start, now) as real
  {
    assert now - (now - start) == start;
    RatioTimesWindow(HealthyInstants(log, start, now), now - start);
  }

  lemma RatioTimesWindow(h: int, w: int)
    requires 0 < w
    ensures h as real / w as real * w as real == h as real
  {
  }

  // Healthy time over two adjacent fully known windows adds up to that of their union.
  lemma AdjacentWindows(log: seq<StatusChange>, start: int, mid: int, now: int)
    requires start < mid < now && StatusOf(log, start).Some? && StatusOf(log, mid).Some?
    ensures HealthyTime(UptimeOf(log, mid - start, mid)) + HealthyTime(UptimeOf(log, now - mid, now))
      == HealthyTime(UptimeOf(log, now - start, now))
  {
    HealthyTimeIsIntegral(log, start, mid);
    HealthyTimeIsIntegral(log, mid, now);
    HealthyTimeIsIntegral(log, start, now);
    HealthyAdditive(log, start, mid, now);
  }
}
