// The heartbeat bar: one sweep over the transitions, the worst status per bucket.
module Heartbeats {
  import opened Clock
  import opened StatusLog
  import opened UptimeSpec
  import opened Stores

  const BUCKETS := 48
  const DAY: int := 24 * 3_600_000_000_000

  function StatusRank(status: string): nat {
    match status
    case "down" => 4
    case "degraded" => 3
    case "inactive" => 2
    case "healthy" => 1
    case _ => 0
  }

  function WorseStatus(a: string, b: string): string {
    if StatusRank(b) > StatusRank(a) then b else a
  }

  // s is the highest-ranked candidate, and the earliest of those.
  ghost predicate IsWorst(s: string, candidates: seq<string>) {
    exists j :: 0 <= j < |candidates| && Wins(s, candidates, j)
  }

  predicate Wins(s: string, candidates: seq<string>, j: nat)
    requires j < |candidates|
  {
    && candidates[j] == s
    && (forall k :: 0 <= k < |candidates| ==> StatusRank(candidates[k]) <= StatusRank(s))
    && (forall k :: 0 <= k < j ==> StatusRank(candidates[k]) < StatusRank(s))
  }

  // How many changes happened strictly before t.
  function Before(changes: seq<StatusChange>, t: int): (k: nat)
    ensures k <= |changes|
  {
    Count(changes, t - 1)
  }

  function Statuses(changes: seq<StatusChange>): seq<string> {
    seq(|changes|, i requires 0 <= i < |changes| => changes[i].status)
  }

  // The status a bucket starts with: what the last change before it left, the first bucket's being given.
  function CarriedIn(initial: string, changes: seq<StatusChange>, first: bool, start: int): string {
    var k := Before(changes, start);
    if first || k == 0 then initial else changes[k - 1].status
  }

  // Everything that counts in a bucket: the status carried in, then each transition inside [start, end).
  function Candidates(initial: string, changes: seq<StatusChange>, first: bool, start: int, end: int): (cs: seq<string>)
    requires Sorted(changes) && start <= end
    ensures cs != []
  {
    CountMonotone(changes, start - 1, end - 1);
    [CarriedIn(initial, changes, first, start)] + Statuses(changes[Before(changes, start)..Before(changes, end)])
  }

  ghost predicate BeatsOf(beats: seq<string>, initial: string, changes: seq<StatusChange>, from: int, width: nat)
    requires Sorted(changes)
  {
    forall i :: 0 <= i < |beats| ==> BeatAt(beats[i], i, initial, changes, from, width)
  }

  ghost predicate BeatAt(beat: string, i: nat, initial: string, changes: seq<StatusChange>, from: int, width: nat)
    requires Sorted(changes)
  {
    var start := StartOf(from, width, i);
    IsWorst(beat, Candidates(initial, changes, i == 0, start, start + width))
  }

  // Where bucket i begins.
  function StartOf(from: int, width: nat, i: nat): int {
    from + i * width
  }

  lemma WorstOfMore(worst: string, candidates: seq<string>, next: string)
    requires IsWorst(worst, candidates)
    ensures IsWorst(WorseStatus(worst, next), candidates + [next])
  {
    var j :| 0 <= j < |candidates| && Wins(worst, candidates, j);
    var more := candidates + [next];
    if StatusRank(next) > StatusRank(worst) {
      assert Wins(next, more, |candidates|);
    } else {
      assert Wins(worst, more, j);
    }
  }

  // The status among the candidates that a beat shows, by name; without any of the four known ones the
  // bucket shows what it began with.
  predicate ShowsWorst(s: string, candidates: seq<string>)
    requires candidates != []
  {
    s ==
      if "down" in candidates then "down"
      else if "degraded" in candidates then "degraded"
      else if "inactive" in candidates then "inactive"
      else if "healthy" in candidates then "healthy"
      else candidates[0]
  }

  lemma WorstByName(s: string, candidates: seq<string>)
    requires IsWorst(s, candidates)
    ensures candidates != [] && ShowsWorst(s, candidates)
  {
    var j :| 0 <= j < |candidates| && Wins(s, candidates, j);
    RanksByName(s);
    forall k | 0 <= k < |candidates|
      ensures candidates[k] == "down" ==> s == "down"
      ensures candidates[k] == "degraded" ==> s in {"down", "degraded"}
      ensures candidates[k] == "inactive" ==> s in {"down", "degraded", "inactive"}
      ensures candidates[k] == "healthy" ==> s in {"down", "degraded", "inactive", "healthy"}
    {
      RanksByName(candidates[k]);
    }
    assert j > 0 ==> StatusRank(candidates[0]) < StatusRank(s);
    hide StatusRank;
  }

  lemma RanksByName(s: string)
    ensures StatusRank(s) == 4 <==> s == "down"
    ensures StatusRank(s) == 3 <==> s == "degraded"
    ensures StatusRank(s) == 2 <==> s == "inactive"
    ensures StatusRank(s) == 1 <==> s == "healthy"
    ensures StatusRank(s) <= 4
  {
  }

  // The cursor over the transitions moves once through the whole window.
  method BuildHeartbeats(initial: string, changes: seq<StatusChange>, from: int, to: int, buckets: int)
    returns (out: seq<string>)
    requires Sorted(changes)
    ensures buckets <= 0 || to <= from ==> out == []
    ensures 0 < buckets && from < to ==> |out| == buckets && BeatsOf(out, initial, changes, from, (to - from) / buckets)
    ensures 0 < buckets && from < to ==> ByName(out, initial, changes, from, (to - from) / buckets)
  {
    if buckets <= 0 || to <= from {
      return [];
    }
    var width := (to - from) / buckets;
    out := [];
    var current, next := initial, 0;
    for i := 0 to buckets
      invariant |out| == i && BeatsOf(out, initial, changes, from, width)
      invariant next <= |changes| && current == CarriedIn(initial, changes, i == 0, StartOf(from, width, i))
      invariant next == if i == 0 then 0 else Before(changes, StartOf(from, width, i))
    {
      var start := StartOf(from, width, i);
      var worst;
      worst, current, next := OneBeat(initial, changes, i == 0, start, start + width, current, next);
      assert BeatAt(worst, i, initial, changes, from, width);
      assert start + width == StartOf(from, width, i + 1);
      out := out + [worst];
    }
    BeatsByName(out, initial, changes, from, width);
  }

  // Beat i shows the worst, by name, of what counts in [from + i * width, from + (i + 1) * width).
  ghost predicate ByName(beats: seq<string>, initial: string, changes: seq<StatusChange>, from: int, width: nat)
    requires Sorted(changes)
  {
    forall i :: 0 <= i < |beats| ==>
      ShowsWorst(beats[i], Candidates(initial, changes, i == 0, from + i * width, from + i * width + width))
  }

  lemma BeatsByName(beats: seq<string>, initial: string, changes: seq<StatusChange>, from: int, width: nat)
    requires Sorted(changes) && BeatsOf(beats, initial, changes, from, width)
    ensures ByName(beats, initial, changes, from, width)
  {
    hide Candidates, IsWorst, ShowsWorst;
    forall i | 0 <= i < |beats|
      ensures ShowsWorst(beats[i], Candidates(initial, changes, i == 0, from + i * width, from + i * width + width))
    {
      assert BeatAt(beats[i], i, initial, changes, from, width);
      WorstByName(beats[i], Candidates(initial, changes, i == 0, from + i * width, from + i * width + width));
    }
  }

  // One bucket of the sweep; next is left behind the last change before end.
  method OneBeat(initial: string, changes: seq<StatusChange>, first: bool, start: int, end: int, carried: string,
                 from: nat)
    returns (worst: string, current: string, next: nat)
    requires Sorted(changes) && start <= end
    requires carried == CarriedIn(initial, changes, first, start)
    requires from == if first then 0 else Before(changes, start)
    ensures IsWorst(worst, Candidates(initial, changes, first, start, end))
    ensures next == Before(changes, end) && current == CarriedIn(initial, changes, false, end)
  {
    CountSplits(changes, start - 1);
    CountSplits(changes, end - 1);
    CandidatesAre(initial, changes, first, start, end);
    hide Count, Statuses, IsWorst, Candidates, StatusRank;
    worst, current, next := Sweep(changes, start, end, carried, from, Before(changes, start), Before(changes, end));
  }

  // The inner loop; lo and hi delimit the changes inside [start, end).
  method Sweep(changes: seq<StatusChange>, start: int, end: int, carried: string, from: nat, ghost lo: nat,
               ghost hi: nat)
    returns (worst: string, current: string, next: nat)
    requires from <= lo <= hi <= |changes|
    requires forall i :: 0 <= i < |changes| ==> (i < lo <==> changes[i].changedAt < start)
    requires forall i :: 0 <= i < |changes| ==> (i < hi <==> changes[i].changedAt < end)
    ensures IsWorst(worst, [carried] + Statuses(changes[lo..hi]))
    ensures next == hi && current == if hi == from then carried else changes[hi - 1].status
  {
    hide Statuses, IsWorst, StatusRank, WorseStatus;
    worst, current, next := carried, carried, from;
    ghost var seen := [carried];
    CarriedWins(carried, changes, lo);
    while next < |changes| && changes[next].changedAt < end
      invariant from <= next <= hi
      invariant IsWorst(worst, seen) && seen == [carried] + Statuses(changes[lo..Max(lo, next)])
      invariant current == if next == from then carried else changes[next - 1].status
    {
      if changes[next].changedAt >= start {
        WorstOfMore(worst, seen, changes[next].status);
        StatusesStep(changes, lo, next);
        seen := seen + [changes[next].status];
        worst := WorseStatus(worst, changes[next].status);
      }
      current := changes[next].status;
      next := next + 1;
    }
  }

  lemma CandidatesAre(initial: string, changes: seq<StatusChange>, first: bool, start: int, end: int)
    requires Sorted(changes) && start <= end
    ensures Before(changes, start) <= Before(changes, end)
    ensures Candidates(initial, changes, first, start, end)
      == [CarriedIn(initial, changes, first, start)] + Statuses(changes[Before(changes, start)..Before(changes, end)])
  {
    CountMonotone(changes, start - 1, end - 1);
  }

  lemma CarriedWins(carried: string, changes: seq<StatusChange>, b: nat)
    requires b <= |changes|
    ensures IsWorst(carried, [carried])
    ensures [carried] == [carried] + Statuses(changes[b..b])
  {
    assert Wins(carried, [carried], 0);
  }

  lemma StatusesStep(changes: seq<StatusChange>, b: nat, n: nat)
    requires b <= n < |changes|
    ensures Statuses(changes[b..n + 1]) == Statuses(changes[b..n]) + [changes[n].status]
  {
  }

  // ---- every change before the end of the bar is looked at in exactly one bucket ----

  lemma {:induction false} BucketOf(from: int, width: nat, n: nat, t: int) returns (i: nat)
    requires from <= t < StartOf(from, width, n)
    ensures i < n && StartOf(from, width, i) <= t < StartOf(from, width, i) + width
  {
    if t < StartOf(from, width, n - 1) {
      i := BucketOf(from, width, n - 1, t);
    } else {
      i := n - 1;
    }
  }

  lemma BucketUnique(from: int, width: nat, i: nat, j: nat, t: int)
    requires StartOf(from, width, i) <= t < StartOf(from, width, i) + width
    requires StartOf(from, width, j) <= t < StartOf(from, width, j) + width
    ensures i == j
  {
    if i < j {
      StartsApart(from, width, i, j);
    } else if j < i {
      StartsApart(from, width, j, i);
    }
  }

  lemma {:induction false} StartsApart(from: int, width: nat, i: nat, j: nat)
    requires i < j
    ensures StartOf(from, width, i) + width <= StartOf(from, width, j)
    decreases j
  {
    if i + 1 < j {
      StartsApart(from, width, i, j - 1);
    }
  }

  lemma ConsumedOnce(changes: seq<StatusChange>, k: nat, from: int, width: nat, n: nat)
    requires Sorted(changes) && k < |changes| && from <= changes[k].changedAt < StartOf(from, width, n)
    ensures exists i :: 0 <= i < n && InBucket(changes, k, from, width, i)
    ensures forall i, j ::
      (0 <= i < n && 0 <= j < n && InBucket(changes, k, from, width, i) && InBucket(changes, k, from, width, j) ==> i == j)
  {
    var t := changes[k].changedAt;
    var i := BucketOf(from, width, n, t);
    InBucketMeans(changes, k, from, width, i);
    forall a, b | 0 <= a < n && 0 <= b < n && InBucket(changes, k, from, width, a) && InBucket(changes, k, from, width, b)
      ensures a == b
    {
      InBucketMeans(changes, k, from, width, a);
      InBucketMeans(changes, k, from, width, b);
      BucketUnique(from, width, a, b, t);
    }
  }

  // The kth change is one of those bucket i looks at.
  predicate InBucket(changes: seq<StatusChange>, k: nat, from: int, width: nat, i: nat) {
    Before(changes, StartOf(from, width, i)) <= k < Before(changes, StartOf(from, width, i) + width)
  }

  lemma InBucketMeans(changes: seq<StatusChange>, k: nat, from: int, width: nat, i: nat)
    requires Sorted(changes) && k < |changes|
    ensures InBucket(changes, k, from, width, i)
      <==> StartOf(from, width, i) <= changes[k].changedAt < StartOf(from, width, i) + width
  {
    CountSplits(changes, StartOf(from, width, i) - 1);
    CountSplits(changes, StartOf(from, width, i) + width - 1);
  }

  // ---- the bar against the log it is drawn from ----

  // What the heartbeats of a tunnel are built from: the status at the window start and the rows from
  // its second on, which are log's rows from index j.
  ghost predicate DrawnFrom(log: seq<StatusChange>, j: nat, initial: string, changes: seq<StatusChange>, from: int) {
    && Sorted(log) && j <= Count(log, from) && changes == log[j..]
    && (forall i :: 0 <= i < j ==> log[i].changedAt <= from)
    && initial == (if StatusOf(log, from).Some? then StatusOf(log, from).value else "")
  }

  lemma CandidateMembers(initial: string, changes: seq<StatusChange>, first: bool, start: int, end: int)
    requires Sorted(changes) && start <= end
    ensures CarriedIn(initial, changes, first, start) in Candidates(initial, changes, first, start, end)
    ensures forall m ::
      0 <= m < |changes| && start <= changes[m].changedAt < end ==>
        changes[m].status in Candidates(initial, changes, first, start, end)
  {
    CountSplits(changes, start - 1);
    CountSplits(changes, end - 1);
    CountMonotone(changes, start - 1, end - 1);
    hide Count, CarriedIn;
    var cs, lo := Candidates(initial, changes, first, start, end), Before(changes, start);
    forall m | 0 <= m < |changes| && start <= changes[m].changedAt < end ensures changes[m].status in cs {
      assert cs[1 + (m - lo)] == changes[m].status;
    }
    assert cs[0] == CarriedIn(initial, changes, first, start);
  }

  // Any status in effect at an instant of a bucket is among the bucket's candidates.
  lemma InEffectIsCandidate(log: seq<StatusChange>, j: nat, initial: string, changes: seq<StatusChange>,
                            from: int, first: bool, start: int, end: int, s: int)
    requires DrawnFrom(log, j, initial, changes, from) && Sorted(changes)
    requires from <= start <= s < end && (first <==> start == from) && StatusOf(log, s).Some?
    ensures StatusOf(log, s).value in Candidates(initial, changes, first, start, end)
  {
    CandidateMembers(initial, changes, first, start, end);
    CountSplits(log, s);
    CountSplits(log, from);
    CountMonotone(log, from, s);
    var k := Count(log, s) - 1;
    if start <= log[k].changedAt && j <= k {
      hide Candidates, Count, CarriedIn;
      assert changes[k - j] == log[k];
    } else {
      CarriedStatus(log, j, initial, changes, from, first, start, s);
    }
  }

  // When the last row before s lies before the bucket, its status is the one carried in.
  lemma CarriedStatus(log: seq<StatusChange>, j: nat, initial: string, changes: seq<StatusChange>,
                      from: int, first: bool, start: int, s: int)
    requires DrawnFrom(log, j, initial, changes, from) && Sorted(changes)
    requires from <= start <= s && (first <==> start == from)
    requires Count(log, s) > 0 && var k := Count(log, s) - 1; log[k].changedAt < start || k < j
    ensures CarriedIn(initial, changes, first, start) == log[Count(log, s) - 1].status
  {
    var k := Count(log, s) - 1;
    if first || k < j {
      EffectiveAtStart(log, j, initial, changes, from, s);
      if !first {
        NothingBefore(log, j, changes, start, s);
      }
    } else {
      LastBefore(log, j, changes, start, s);
    }
    hide Count, StatusOf, DrawnFrom;
  }

  lemma EffectiveAtStart(log: seq<StatusChange>, j: nat, initial: string, changes: seq<StatusChange>, from: int, s: int)
    requires DrawnFrom(log, j, initial, changes, from) && from <= s
    requires Count(log, s) > 0 && var k := Count(log, s) - 1; log[k].changedAt <= from || k < j
    ensures initial == log[Count(log, s) - 1].status
  {
    CountSplits(log, s);
    CountIs(log, from, Count(log, s));
  }

  lemma NothingBefore(log: seq<StatusChange>, j: nat, changes: seq<StatusChange>, start: int, s: int)
    requires Sorted(log) && Sorted(changes) && j <= |log| && changes == log[j..] && start <= s && Count(log, s) <= j
    ensures Before(changes, start) == 0
  {
    CountSplits(log, s);
    if changes != [] {
      assert changes[0] == log[j];
    }
    CountIs(changes, start - 1, 0);
  }

  lemma LastBefore(log: seq<StatusChange>, j: nat, changes: seq<StatusChange>, start: int, s: int)
    requires Sorted(log) && Sorted(changes) && j < Count(log, s) && changes == log[j..] && start <= s
    requires log[Count(log, s) - 1].changedAt < start
    ensures Before(changes, start) == Count(log, s) - j && changes[Count(log, s) - 1 - j] == log[Count(log, s) - 1]
  {
    CountSplits(log, s);
    var k := Count(log, s) - 1;
    assert changes[k - j] == log[k];
    if k + 1 < |log| {
      assert changes[k + 1 - j] == log[k + 1];
    }
    CountIs(changes, start - 1, k - j + 1);
  }

  lemma WorstDominates(beat: string, candidates: seq<string>, status: string)
    requires IsWorst(beat, candidates) && status in candidates
    ensures StatusRank(status) <= StatusRank(beat)
    ensures StatusRank(status) == 4 ==> beat == "down"
  {
  }

  // No instant of a bucket is worse than its beat.
  lemma BeatCoversInstant(log: seq<StatusChange>, j: nat, initial: string, changes: seq<StatusChange>,
                          from: int, width: nat, beats: seq<string>, i: nat, s: int)
    requires DrawnFrom(log, j, initial, changes, from) && Sorted(changes)
    requires i < |beats| && BeatsOf(beats, initial, changes, from, width)
    requires StartOf(from, width, i) <= s < StartOf(from, width, i) + width && StatusOf(log, s).Some?
    ensures StatusRank(StatusOf(log, s).value) <= StatusRank(beats[i])
    ensures StatusOf(log, s).value == "down" ==> beats[i] == "down"
    ensures StatusOf(log, s).value == "degraded" ==> beats[i] in {"down", "degraded"}
    ensures StatusOf(log, s).value == "inactive" ==> beats[i] in {"down", "degraded", "inactive"}
    ensures StatusOf(log, s).value == "healthy" ==> beats[i] in {"down", "degraded", "inactive", "healthy"}
  {
    RanksByName(beats[i]);
    RanksByName(StatusOf(log, s).value);
    var start, end := StartOf(from, width, i), StartOf(from, width, i) + width;
    assert StartOf(from, width, 0) == from;
    hide StartOf;
    if i > 0 {
      StartsApart(from, width, 0, i);
    }
    InEffectIsCandidate(log, j, initial, changes, from, i == 0, start, end, s);
    assert BeatAt(beats[i], i, initial, changes, from, width);
    hide Candidates, Count, StatusOf, StatusRank;
    WorstDominates(beats[i], Candidates(initial, changes, i == 0, start, end), StatusOf(log, s).value);
  }

  predicate KnownStatuses(log: seq<StatusChange>) {
    forall i :: 0 <= i < |log| ==> log[i].status in {"healthy", "inactive", "degraded", "down"}
  }

  // One of the three statuses that are worse than healthy.
  predicate Trouble(status: string) {
    status in {"inactive", "degraded", "down"}
  }

  // A ratio below one shows up in the bar.
  lemma DowntimeIsVisible(log: seq<StatusChange>, j: nat, initial: string, changes: seq<StatusChange>,
                          window: int, now: int, buckets: nat, beats: seq<string>)
    requires DrawnFrom(log, j, initial, changes, now - window) && Sorted(changes) && KnownStatuses(log)
    requires 0 < window && 0 < buckets && window % buckets == 0
    requires |beats| == buckets && BeatsOf(beats, initial, changes, now - window, window / buckets)
    requires var u := UptimeOf(log, window, now); u.observed && u.window > 0 && u.healthyRatio < 1.0
    ensures exists i :: 0 <= i < |beats| && Trouble(beats[i])
  {
    var from, width := now - window, window / buckets;
    var s := UnhealthyInstant(log, window, now);
    ExactWidth(window, buckets);
    assert now == StartOf(from, width, buckets);
    var i := BucketOf(from, width, buckets, s);
    hide *;
    BeatCoversInstant(log, j, initial, changes, from, width, beats, i, s);
  }

  lemma ExactWidth(window: nat, buckets: nat)
    requires 0 < buckets && window % buckets == 0
    ensures buckets * (window / buckets) == window
  {
  }

  lemma UnhealthyInstant(log: seq<StatusChange>, window: int, now: int) returns (s: int)
    requires Sorted(log) && KnownStatuses(log) && 0 < window
    requires var u := UptimeOf(log, window, now); u.observed && u.window > 0 && u.healthyRatio < 1.0
    ensures now - window <= s < now && StatusOf(log, s).Some?
    ensures Trouble(StatusOf(log, s).value)
  {
    RatioIsShare(log, window, now);
    hide HealthyInstants, Count, StatusOf;
    var start := now - UptimeOf(log, window, now).window;
    s :| start <= s < now && StatusOf(log, s) != Some(HEALTHY);
    UnhealthyIsWorse(log, window, now, s);
  }

  lemma UnhealthyIsWorse(log: seq<StatusChange>, window: int, now: int, s: int)
    requires Sorted(log) && log != [] && KnownStatuses(log) && 0 < window
    requires EffectiveStart(log, now - window) <= s && StatusOf(log, s) != Some(HEALTHY)
    ensures now - window <= s && StatusOf(log, s).Some? && Trouble(StatusOf(log, s).value)
  {
    CountSplits(log, s);
    CountSplits(log, now - window);
    if StatusOf(log, now - window).Some? {
      CountMonotone(log, now - window, s);
    }
  }

  ghost predicate Caused(changes: seq<StatusChange>, from: int, end: int, s: string) {
    exists k :: 0 <= k < |changes| && from <= changes[k].changedAt < end && changes[k].status == s
  }

  // The status carried into a bucket is the one the window starts with or that of a transition since.
  lemma CarriedOrigin(log: seq<StatusChange>, j: nat, initial: string, changes: seq<StatusChange>, from: int,
                      first: bool, start: int)
    requires DrawnFrom(log, j, initial, changes, from) && Sorted(changes) && from <= start && (first <==> start == from)
    ensures var s := CarriedIn(initial, changes, first, start); s == initial || Caused(changes, from, start, s)
  {
    CountSplits(changes, start - 1);
    var n := Before(changes, start);
    if !first && n > 0 && changes[n - 1].changedAt < from {
      NewestBeforeWindow(log, j, initial, changes, from, n);
    }
    hide Count, DrawnFrom;
  }

  // A last change that lies before the window left the status the window starts with.
  lemma NewestBeforeWindow(log: seq<StatusChange>, j: nat, initial: string, changes: seq<StatusChange>, from: int,
                           n: nat)
    requires DrawnFrom(log, j, initial, changes, from) && 0 < n <= |changes| && changes[n - 1].changedAt < from
    requires n < |changes| ==> from < changes[n].changedAt
    ensures initial == changes[n - 1].status
  {
    assert log[j + n - 1] == changes[n - 1];
    if n < |changes| {
      assert log[j + n] == changes[n];
    }
    CountIs(log, from, j + n);
    hide Count;
  }

  // A candidate of any bucket is the status at the window start or that of a transition since.
  lemma CandidateOrigin(log: seq<StatusChange>, j: nat, initial: string, changes: seq<StatusChange>,
                        from: int, first: bool, start: int, end: int, s: string)
    requires DrawnFrom(log, j, initial, changes, from) && Sorted(changes)
    requires from <= start <= end && (first <==> start == from)
    requires s in Candidates(initial, changes, first, start, end)
    ensures s == initial || Caused(changes, from, end, s)
  {
    CandidatesAre(initial, changes, first, start, end);
    CarriedOrigin(log, j, initial, changes, from, first, start);
    CountSplits(changes, start - 1);
    CountSplits(changes, end - 1);
    var lo, hi := Before(changes, start), Before(changes, end);
    hide Count, DrawnFrom, CarriedIn, Candidates, Statuses, Before;
    if s != CarriedIn(initial, changes, first, start) {
      var k := StatusInSlice(changes, lo, hi, s);
      assert changes[k].status == s;
    }
  }

  lemma StatusInSlice(changes: seq<StatusChange>, lo: nat, hi: nat, s: string) returns (k: nat)
    requires lo <= hi <= |changes| && s in Statuses(changes[lo..hi])
    ensures lo <= k < hi && changes[k].status == s
  {
    var i :| 0 <= i < hi - lo && Statuses(changes[lo..hi])[i] == s;
    k := lo + i;
  }

  // For any statuses: the bar shows something worse than healthy exactly when the window starts in
  // such a status or a transition before the end of the bar leads to one.
  lemma BarShowsTroubleIff(log: seq<StatusChange>, j: nat, initial: string, changes: seq<StatusChange>,
                           from: int, width: nat, beats: seq<string>)
    requires DrawnFrom(log, j, initial, changes, from) && Sorted(changes) && beats != [] && 0 < width
    requires BeatsOf(beats, initial, changes, from, width)
    ensures (exists i :: 0 <= i < |beats| && Trouble(beats[i]))
      <==> || Trouble(initial)
           || exists k :: 0 <= k < |changes| && InBar(changes[k], from, width, |beats|) && Trouble(changes[k].status)
  {
    hide StatusRank, DrawnFrom, StartOf, Trouble;
    if i :| 0 <= i < |beats| && Trouble(beats[i]) {
      TroubleHasCause(log, j, initial, changes, from, width, beats, i);
    }
    InitialIsShown(initial, changes, from, width, beats);
    TroubleOutranks(initial, beats[0]);
    if k :| 0 <= k < |changes| && InBar(changes[k], from, width, |beats|) && Trouble(changes[k].status) {
      CauseIsShown(initial, changes, from, width, beats, k);
      var i :| 0 <= i < |beats| && StatusRank(changes[k].status) <= StatusRank(beats[i]);
      TroubleOutranks(changes[k].status, beats[i]);
    }
  }

  lemma TroubleOutranks(s: string, beat: string)
    ensures Trouble(s) && StatusRank(s) <= StatusRank(beat) ==> Trouble(beat)
  {
    RanksByName(s);
    RanksByName(beat);
  }

  // The change lies inside the window, before the end of the last bucket.
  predicate InBar(c: StatusChange, from: int, width: nat, n: nat) {
    from <= c.changedAt < StartOf(from, width, n)
  }

  lemma InitialIsShown(initial: string, changes: seq<StatusChange>, from: int, width: nat, beats: seq<string>)
    requires Sorted(changes) && BeatsOf(beats, initial, changes, from, width) && beats != []
    ensures StatusRank(initial) <= StatusRank(beats[0])
  {
    assert BeatAt(beats[0], 0, initial, changes, from, width);
    var start := StartOf(from, width, 0);
    assert CarriedIn(initial, changes, true, start) == initial;
    hide Candidates, StatusRank;
    CandidateMembers(initial, changes, true, start, start + width);
    WorstDominates(beats[0], Candidates(initial, changes, true, start, start + width), initial);
  }

  lemma CauseIsShown(initial: string, changes: seq<StatusChange>, from: int, width: nat, beats: seq<string>, k: nat)
    requires Sorted(changes) && BeatsOf(beats, initial, changes, from, width)
    requires k < |changes| && InBar(changes[k], from, width, |beats|)
    ensures exists i :: 0 <= i < |beats| && StatusRank(changes[k].status) <= StatusRank(beats[i])
  {
    var i := BucketOf(from, width, |beats|, changes[k].changedAt);
    assert BeatAt(beats[i], i, initial, changes, from, width);
    hide Candidates, StatusRank;
    var start := StartOf(from, width, i);
    CandidateMembers(initial, changes, i == 0, start, start + width);
    WorstDominates(beats[i], Candidates(initial, changes, i == 0, start, start + width), changes[k].status);
  }

  lemma TroubleHasCause(log: seq<StatusChange>, j: nat, initial: string, changes: seq<StatusChange>,
                        from: int, width: nat, beats: seq<string>, i: nat)
    requires DrawnFrom(log, j, initial, changes, from) && Sorted(changes) && i < |beats| && 0 < width
    requires BeatsOf(beats, initial, changes, from, width)
    ensures beats[i] == initial || Caused(changes, from, StartOf(from, width, |beats|), beats[i])
  {
    var start := StartOf(from, width, i);
    BeatIsCandidate(initial, changes, from, width, beats, i);
    assert StartOf(from, width, 0) == from;
    hide Candidates, StartOf, BeatsOf, DrawnFrom;
    if i > 0 {
      StartsApart(from, width, 0, i);
    }
    StartsApart(from, width, i, |beats|);
    CandidateOrigin(log, j, initial, changes, from, i == 0, start, start + width, beats[i]);
  }

  lemma BeatIsCandidate(initial: string, changes: seq<StatusChange>, from: int, width: nat, beats: seq<string>, i: nat)
    requires Sorted(changes) && i < |beats| && BeatsOf(beats, initial, changes, from, width)
    ensures var start := StartOf(from, width, i);
      beats[i] in Candidates(initial, changes, i == 0, start, start + width)
  {
    assert BeatAt(beats[i], i, initial, changes, from, width);
    hide Candidates;
  }

  // A tunnel that has long been in a status outside the four known ones has no uptime at all, and no
  // beat is worse than healthy: each shows that status.
  lemma UnknownIsInvisible(row: StatusChange, window: int, now: int, buckets: nat, beats: seq<string>)
    requires row.status !in {"healthy", "inactive", "degraded", "down"} && row.changedAt <= now - window && 0 < window && 0 < buckets <= window
    requires |beats| == buckets && BeatsOf(beats, row.status, [], now - window, window / buckets)
    ensures DrawnFrom([row], 1, row.status, [], now - window)
    ensures UptimeOf([row], window, now) == Uptime(window, 0.0, 0, true)
    ensures forall i :: 0 <= i < |beats| ==> beats[i] == row.status
  {
    var log, from := [row], now - window;
    CountIs(log, from, 1);
    CountIs(log, now, 1);
    Segment(log, 1, from, now);
    assert log[1..] == [];
    hide HealthyInstants, Count;
    forall i | 0 <= i < |beats| ensures beats[i] == row.status {
      BeatOfOne(row.status, from, window / buckets, beats, i);
    }
  }

  // Without transitions every beat shows the status the window starts with.
  lemma BeatOfOne(initial: string, from: int, width: nat, beats: seq<string>, i: nat)
    requires i < |beats| && BeatsOf(beats, initial, [], from, width)
    ensures beats[i] == initial
  {
    assert BeatAt(beats[i], i, initial, [], from, width);
    CandidatesAre(initial, [], i == 0, StartOf(from, width, i), StartOf(from, width, i) + width);
    var start := StartOf(from, width, i);
    var candidates := Candidates(initial, [], i == 0, start, start + width);
    assert candidates == [initial];
    var j :| 0 <= j < |candidates| && Wins(beats[i], candidates, j);
  }

  // Full uptime whenever every beat with data is healthy.
  lemma HealthyBarIsFullUptime(log: seq<StatusChange>, j: nat, initial: string, changes: seq<StatusChange>,
                               window: int, now: int, buckets: nat, beats: seq<string>)
    requires DrawnFrom(log, j, initial, changes, now - window) && Sorted(changes) && KnownStatuses(log)
    requires 0 < window && 0 < buckets && window % buckets == 0
    requires |beats| == buckets && BeatsOf(beats, initial, changes, now - window, window / buckets)
    requires forall i :: 0 <= i < |beats| ==> beats[i] in {"", "healthy"}
    requires UptimeOf(log, window, now).observed && UptimeOf(log, window, now).window > 0
    ensures UptimeOf(log, window, now).healthyRatio == 1.0
  {
    RatioIsShare(log, window, now);
    if UptimeOf(log, window, now).healthyRatio < 1.0 {
      DowntimeIsVisible(log, j, initial, changes, window, now, buckets, beats);
    }
  }

  // The last 24 hours of one tunnel, read from the store.
  method Heartbeats(store: Store, tunnelID: string, now: int)
    returns (out: seq<string>, ghost j: nat, ghost initial: string, ghost changes: seq<StatusChange>)
    ensures |out| == 48 && Sorted(changes)
    ensures DrawnFrom(Log(store.history, tunnelID), j, initial, changes, now - 86_400_000_000_000)
    ensures BeatsOf(out, initial, changes, now - 86_400_000_000_000, 1_800_000_000_000)
    ensures ByName(out, initial, changes, now - 86_400_000_000_000, 1_800_000_000_000)
  {
    hide BeatsOf, ByName, Select, Count;
    var from := now - DAY;
    var status, known := store.StatusAt(tunnelID, from);
    var rows := store.StatusHistory(tunnelID, from);
    ghost var log, k := UptimeQueries(store.history, tunnelID, from, rows);
    CountSplits(log, from);
    j, initial, changes := k, status, rows;
    assert Sorted(rows) by {
      assert forall a, b :: 0 <= a < b < |rows| ==> rows[a] == log[k + a] && rows[b] == log[k + b];
    }
    out := BuildHeartbeats(status, rows, from, now, BUCKETS);
  }
}
