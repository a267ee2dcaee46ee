// The figures and buckets of a window in terms of its samples alone: their classes, times and the
// probe interval.
module QualityFacts {
  import opened Clock
  import opened Prober
  import opened QualitySpec
  import opened QualityRanks
  import opened Quality

  // Sample k directly continues the one before it: both are ok, and they are at most one and a half
  // intervals apart.
  predicate Follows(w: seq<Sample>, k: nat, interval: int)
    requires k < |w|
  {
    k > 0 && w[k - 1].class_ == "ok" && w[k].class_ == "ok" &&
    var gap := w[k].at - w[k - 1].at;
    0 < gap && 2 * gap <= 3 * interval
  }

  predicate Failed(s: Sample) {
    s.class_ in {"tunnel_down", "origin_error", "timeout", "dns_error", "tls_error", "http_error"}
  }

  // Slot i of 288 takes five minutes; the last one takes whatever comes after it.
  predicate InSlot(since: int, i: int, at: int) {
    since + i * 300_000_000_000 <= at && (i == 287 || at < since + (i + 1) * 300_000_000_000)
  }

  predicate Inside(since: int, slot: Option<int>, at: int) {
    slot.None? || InSlot(since, slot.value, at)
  }

  predicate Holds(w: seq<Sample>, k: nat, interval: int, m: Measure)
    requires k < |w|
  {
    match m
    case Oks => w[k].class_ == "ok"
    case Failures => Failed(w[k])
    case Excluded => w[k].class_ != "ok" && !Failed(w[k])
    case _ => Follows(w, k, interval)
  }

  // The positions of a slot, or of the whole window, at which something holds.
  ghost function Where(w: seq<Sample>, since: int, interval: int, slot: Option<int>, m: Measure): set<nat> {
    set k: nat | k < |w| && Inside(since, slot, w[k].at) && Holds(w, k, interval, m)
  }

  // The sum of |difference| over the samples that follow their predecessor.
  function Drift(w: seq<Sample>, since: int, interval: int, slot: Option<int>): int {
    if w == [] then 0
    else
      var k := |w| - 1;
      Drift(w[..k], since, interval, slot) +
      (if Inside(since, slot, w[k].at) && Follows(w, k, interval) then
         if w[k - 1].ms <= w[k].ms then w[k].ms - w[k - 1].ms else w[k - 1].ms - w[k].ms
       else 0)
  }

  function OkTotal(w: seq<Sample>, since: int, slot: Option<int>): int {
    if w == [] then 0
    else
      var s := w[|w| - 1];
      OkTotal(w[..|w| - 1], since, slot) + (if Inside(since, slot, s.at) && s.class_ == "ok" then s.ms else 0)
  }

  // s lists the ok latencies of w in ascending order.
  ghost predicate Arranges(s: seq<int>, w: seq<Sample>) {
    Ascending(s) && forall v :: multiset(s)[v] == |OksOf(w, v)|
  }

  ghost function OksOf(w: seq<Sample>, v: int): set<nat> {
    set k: nat | k < |w| && w[k].class_ == "ok" && w[k].ms == v
  }

  ghost predicate IsMedian(m: real, s: seq<int>) {
    s != [] && 2.0 * m == (s[(|s| - 1) / 2] + s[|s| / 2]) as real
  }

  ghost predicate IsP95(p: int, s: seq<int>) {
    p in s && 100 * AtMost(s, p as real) >= 95 * |s| && 100 * Below(s, p as real) < 95 * |s|
  }

  // What every figure of a window is.
  ghost predicate Figures(q: Quality, w: seq<Sample>, since: int, until: int, interval: int) {
    && q.samples == |w| == q.successful + q.failures + q.excluded
    && q.successful == |Where(w, since, interval, None, Oks)|
    && q.failures == |Where(w, since, interval, None, Failures)|
    && q.excluded == |Where(w, since, interval, None, Excluded)|
    && q.lastSample == (if w == [] then None else Some(w[|w| - 1].at))
    && (q.stale <==> w != [] && 2 * (until - w[|w| - 1].at) > 3 * interval)
    && VariationIs(q.variation, |Where(w, since, interval, None, Pairs)|, Drift(w, since, interval, None))
    && PercentIs(q.failurePercent, q.failures, q.successful + q.failures)
    && (q.median.Some? <==> q.successful > 0) && (q.p95.Some? <==> q.successful > 0)
    && (q.successful > 0 ==> exists s :: Arranges(s, w) && IsMedian(q.median.value, s) && IsP95(q.p95.value, s))
  }

  predicate VariationIs(variation: Option<real>, pairs: int, drift: int) {
    (variation.Some? <==> pairs > 0) && (pairs > 0 ==> variation.value * pairs as real == drift as real)
  }

  predicate PercentIs(percent: Option<real>, failed: int, measured: int) {
    (percent.Some? <==> measured > 0) && (measured > 0 ==> percent.value * measured as real == 100.0 * failed as real)
  }

  // What a bucket counts and adds up.
  ghost predicate BucketFacts(b: Bucket, w: seq<Sample>, since: int, interval: int, i: int) {
    && b.count == |Where(w, since, interval, Some(i), Oks)|
    && b.failures == |Where(w, since, interval, Some(i), Failures)|
    && b.excluded == |Where(w, since, interval, Some(i), Excluded)|
    && b.pairs == |Where(w, since, interval, Some(i), Pairs)|
    && b.variation == Drift(w, since, interval, Some(i))
    && b.sum == OkTotal(w, since, Some(i))
  }

  // ---- the frame of a window is its start and one and a half intervals ----

  lemma PairMeans(since: int, interval: int, w: seq<Sample>, k: nat)
    requires k < |w|
    ensures Pair(FrameOf(since, interval), w, k) <==> Follows(w, k, interval)
  {
  }

  lemma StaleMeans(since: int, interval: int, age: int)
    requires 0 <= age
    ensures age > FrameOf(since, interval).maxGap <==> 2 * age > 3 * interval
  {
  }

  lemma SlotMeans(f: Frame, at: int, i: int)
    requires f.since < at && 0 <= i < 288
    ensures Index(f, at) == i <==> InSlot(f.since, i, at)
  {
  }

  lemma KindMeans(s: Sample)
    ensures Good(s) <==> s.class_ == "ok"
    ensures IsFailure(s.class_) <==> Failed(s)
    ensures Failed(s) ==> !Good(s)
  {
  }

  // One measure at one sample.
  lemma ValueMeans(since: int, interval: int, w: seq<Sample>, k: nat, m: Measure)
    requires k < |w|
    ensures m in {Oks, Failures, Excluded, Pairs} ==>
      Value(FrameOf(since, interval), w, k, m) == if Holds(w, k, interval, m) then 1 else 0
    ensures m == Latency ==> Value(FrameOf(since, interval), w, k, m) == if w[k].class_ == "ok" then w[k].ms else 0
    ensures m == Variation ==> Value(FrameOf(since, interval), w, k, m) == if !Follows(w, k, interval) then 0
      else if w[k - 1].ms <= w[k].ms then w[k].ms - w[k - 1].ms else w[k - 1].ms - w[k].ms
  {
    KindMeans(w[k]);
    PairMeans(since, interval, w, k);
    hide IsFailure, Failed, Good, Pair, Follows;
  }

  predicate Slotted(slot: Option<int>) {
    slot.Some? ==> 0 <= slot.value < 288
  }

  lemma {:induction false} TallyIsSize(since: int, interval: int, w: seq<Sample>, slot: Option<int>, m: Measure)
    requires AllAfter(w, since) && Slotted(slot) && m in {Oks, Failures, Excluded, Pairs}
    ensures Tally(FrameOf(since, interval), w, slot, m) == |Where(w, since, interval, slot, m)|
  {
    if w == [] {
      assert Where(w, since, interval, slot, m) == {};
    } else {
      var f, k, init := FrameOf(since, interval), |w| - 1, w[..|w| - 1];
      TallyIsSize(since, interval, init, slot, m);
      ValueMeans(since, interval, w, k, m);
      if slot.Some? {
        SlotMeans(f, w[k].at, slot.value);
      }
      assert Tally(f, w, slot, m) == Tally(f, init, slot, m)
        + (if slot.None? || Index(f, w[k].at) == slot.value then Value(f, w, k, m) else 0);
      hide Tally, Value, Index, FrameOf, InSlot;
      WhereStep(w, since, interval, slot, m);
    }
  }

  lemma WhereStep(w: seq<Sample>, since: int, interval: int, slot: Option<int>, m: Measure)
    requires w != []
    ensures var k, before := |w| - 1, Where(w[..|w| - 1], since, interval, slot, m);
      |Where(w, since, interval, slot, m)|
        == if Inside(since, slot, w[k].at) && Holds(w, k, interval, m) then |before| + 1 else |before|
  {
    var k, init := |w| - 1, w[..|w| - 1];
    var before, all := Where(init, since, interval, slot, m), Where(w, since, interval, slot, m);
    HoldsInPrefix(w, interval, m);
    hide Holds, Inside;
    forall j: nat ensures j in all <==> j in before || (j == k && Inside(since, slot, w[k].at) && Holds(w, k, interval, m)) {
      assert j < k ==> init[j] == w[j];
    }
    hide Where;
    assert k !in before by { PositionsInRange(init, since, interval, slot, m); }
    assert all == if Inside(since, slot, w[k].at) && Holds(w, k, interval, m) then before + {k} else before;
  }

  lemma PositionsInRange(w: seq<Sample>, since: int, interval: int, slot: Option<int>, m: Measure)
    ensures |w| !in Where(w, since, interval, slot, m)
  {
  }

  lemma HoldsInPrefix(w: seq<Sample>, interval: int, m: Measure)
    requires w != []
    ensures forall j: nat :: j < |w| - 1 ==> Holds(w[..|w| - 1], j, interval, m) == Holds(w, j, interval, m)
  {
    var init := w[..|w| - 1];
    hide Failed;
    assert forall j :: 0 <= j < |init| ==> init[j] == w[j];
  }

  lemma {:induction false} TallyIsSum(since: int, interval: int, w: seq<Sample>, slot: Option<int>)
    requires AllAfter(w, since) && Slotted(slot)
    ensures Tally(FrameOf(since, interval), w, slot, Variation) == Drift(w, since, interval, slot)
    ensures Tally(FrameOf(since, interval), w, slot, Latency) == OkTotal(w, since, slot)
  {
    if w != [] {
      var f, k := FrameOf(since, interval), |w| - 1;
      TallyIsSum(since, interval, w[..k], slot);
      ValueMeans(since, interval, w, k, Variation);
      ValueMeans(since, interval, w, k, Latency);
      if slot.Some? {
        SlotMeans(f, w[k].at, slot.value);
      }
      hide Value, Index, FrameOf, InSlot, Follows;
    }
  }

  // A described bucket in plain terms.
  lemma DescribedFacts(since: int, interval: int, w: seq<Sample>, i: int, b: Bucket)
    requires AllAfter(w, since) && 0 <= i < 288 && Describes(FrameOf(since, interval), w, i, b)
    ensures BucketFacts(b, w, since, interval, i)
  {
    TallyIsSize(since, interval, w, Some(i), Oks);
    TallyIsSize(since, interval, w, Some(i), Failures);
    TallyIsSize(since, interval, w, Some(i), Excluded);
    TallyIsSize(since, interval, w, Some(i), Pairs);
    TallyIsSum(since, interval, w, Some(i));
    hide Tally, Where, Drift, OkTotal, FrameOf, Bounded, Delimited, BrokenIff;
  }

  // ---- the figures ----

  lemma {:induction false} LatenciesArranged(w: seq<Sample>)
    ensures forall v :: multiset(Latencies(w))[v] == |OksOf(w, v)|
  {
    if w == [] {
      forall v ensures OksOf(w, v) == {} {
      }
    } else {
      var init, s := w[..|w| - 1], w[|w| - 1];
      LatenciesArranged(init);
      forall v ensures multiset(Latencies(w))[v] == |OksOf(w, v)| {
        assert OksOf(w, v) == if s.class_ == "ok" && s.ms == v then OksOf(init, v) + {|init|} else OksOf(init, v);
      }
    }
  }

  lemma {:induction false} LatenciesCount(f: Frame, w: seq<Sample>)
    ensures |Latencies(w)| == Tally(f, w, None, Oks)
  {
    if w != [] {
      LatenciesCount(f, w[..|w| - 1]);
    }
  }

  lemma RanksMean(w: seq<Sample>)
    requires Latencies(w) != []
    ensures Sort(Latencies(w)) != []
    ensures var s := Sort(Latencies(w)); Arranges(s, w) && IsMedian(MedianOf(s), s) && IsP95(P95Of(s), s)
  {
    hide Sort, Latencies, AtMost, Below, P95Of, MedianOf, OksOf, IsMedian, Ascending;
    var latencies := Latencies(w);
    LatenciesArranged(w);
    P95IsRank(latencies);
    var s := SortedFrom(latencies);
    Sorts(latencies);
    MedianMeans(s);
    assert IsP95(P95Of(s), s);
  }

  lemma MedianMeans(s: seq<int>)
    requires s != []
    ensures IsMedian(MedianOf(s), s)
  {
  }

  // The summary of a window in plain terms.
  lemma SummaryFacts(since: int, until: int, interval: int, w: seq<Sample>)
    requires AllAfter(w, since) && forall k :: 0 <= k < |w| ==> w[k].at <= until
    ensures Figures(Summary(FrameOf(since, interval), w, until), w, since, until, interval)
  {
    var f := FrameOf(since, interval);
    SummaryCounts(since, until, interval, w);
    SummaryMeans(since, until, interval, w);
    SummaryRanks(f, w, until);
    SummarySizes(f, w, until);
    hide Tally, Where, Drift, FrameOf, Summary, Arranges, IsMedian, IsP95, VariationIs, PercentIs, Holds, Inside;
  }

  lemma SummarySizes(f: Frame, w: seq<Sample>, until: int)
    ensures var q := Summary(f, w, until);
      && q.samples == |w| == q.successful + q.failures + q.excluded && q.successful == Tally(f, w, None, Oks)
      && q.lastSample == (if w == [] then None else Some(w[|w| - 1].at))
  {
    KindsPartition(f, w);
    hide Tally, Latencies, Sort, MedianOf, P95Of;
  }

  lemma SummaryCounts(since: int, until: int, interval: int, w: seq<Sample>)
    requires AllAfter(w, since) && forall k :: 0 <= k < |w| ==> w[k].at <= until
    ensures var q := Summary(FrameOf(since, interval), w, until);
      && q.successful == |Where(w, since, interval, None, Oks)|
      && q.failures == |Where(w, since, interval, None, Failures)|
      && q.excluded == |Where(w, since, interval, None, Excluded)|
      && (q.stale <==> w != [] && 2 * (until - w[|w| - 1].at) > 3 * interval)
  {
    if w != [] {
      StaleMeans(since, interval, until - w[|w| - 1].at);
    }
    hide Tally, Where, FrameOf, Latencies, Sort, MedianOf, P95Of, Holds, Inside;
    TallyIsSize(since, interval, w, None, Oks);
    TallyIsSize(since, interval, w, None, Failures);
    TallyIsSize(since, interval, w, None, Excluded);
  }

  lemma SummaryMeans(since: int, until: int, interval: int, w: seq<Sample>)
    requires AllAfter(w, since)
    ensures var q := Summary(FrameOf(since, interval), w, until);
      && VariationIs(q.variation, |Where(w, since, interval, None, Pairs)|, Drift(w, since, interval, None))
      && PercentIs(q.failurePercent, q.failures, q.successful + q.failures)
  {
    hide Tally, Where, Drift, FrameOf, Summary, VariationIs, PercentIs, Holds, Inside;
    TallyIsSize(since, interval, w, None, Pairs);
    TallyIsSum(since, interval, w, None);
    MeansOf(FrameOf(since, interval), w, until);
  }

  lemma MeansOf(f: Frame, w: seq<Sample>, until: int)
    ensures var q := Summary(f, w, until);
      && VariationIs(q.variation, Tally(f, w, None, Pairs), Tally(f, w, None, Variation))
      && PercentIs(q.failurePercent, q.failures, q.successful + q.failures)
  {
    hide Tally, Latencies, Sort, MedianOf, P95Of, VariationIs, PercentIs;
    var ok, failed := Tally(f, w, None, Oks), Tally(f, w, None, Failures);
    MeanIs(Tally(f, w, None, Variation), Tally(f, w, None, Pairs));
    ShareIs(failed, ok + failed);
  }

  lemma SummaryRanks(f: Frame, w: seq<Sample>, until: int)
    ensures var q := Summary(f, w, until);
      && (q.median.Some? <==> Tally(f, w, None, Oks) > 0) && (q.p95.Some? <==> Tally(f, w, None, Oks) > 0)
      && (q.median.Some? ==> exists s :: Arranges(s, w) && IsMedian(q.median.value, s) && IsP95(q.p95.value, s))
  {
    LatenciesCount(f, w);
    SortedLength(Latencies(w));
    hide Tally, Latencies, Sort, MedianOf, P95Of, Arranges, IsMedian, IsP95;
    if Latencies(w) != [] {
      RanksMean(w);
    }
  }

  lemma MeanIs(sum: int, n: int)
    ensures VariationIs(if n > 0 then Some(sum as real / n as real) else None, n, sum)
  {
  }

  lemma ShareIs(failed: int, n: int)
    ensures PercentIs(if n > 0 then Some(100.0 * failed as real / n as real) else None, failed, n)
  {
  }

  // The window holds the results after its start and up to its end, each as often as it was given.
  lemma {:induction false} WindowIs(results: seq<Sample>, since: int, until: int)
    ensures forall r ::
      multiset(InWindow(results, since, until))[r] == if since < r.at && r.at <= until then multiset(results)[r] else 0
    ensures forall k :: 0 <= k < |InWindow(results, since, until)| ==>
      since < InWindow(results, since, until)[k].at <= until
  {
    if results != [] {
      WindowIs(results[..|results| - 1], since, until);
      assert results == results[..|results| - 1] + [results[|results| - 1]];
    }
  }

  // ---- neighbours ----

  // The samples of slots i - 1 and i are all ok, both slots have some, and each one that has its
  // predecessor in one of the two slots follows it.
  ghost predicate Seamless(w: seq<Sample>, since: int, interval: int, i: int) {
    && HasSample(w, since, i - 1) && HasSample(w, since, i)
    && (forall k :: 0 <= k < |w| && Either(w, since, i, k) ==> w[k].class_ == "ok")
    && (forall k :: 0 < k < |w| && Either(w, since, i, k - 1) && Either(w, since, i, k) ==> Follows(w, k, interval))
  }

  ghost predicate HasSample(w: seq<Sample>, since: int, i: int) {
    exists k :: 0 <= k < |w| && InSlot(since, i, w[k].at)
  }

  predicate Either(w: seq<Sample>, since: int, i: int, k: nat)
    requires k < |w|
  {
    InSlot(since, i - 1, w[k].at) || InSlot(since, i, w[k].at)
  }

  lemma ContiguousMeans(since: int, interval: int, w: seq<Sample>, i: int)
    requires AllAfter(w, since) && 0 < i < 288
    ensures Contiguous(FrameOf(since, interval), w, i - 1, i) <==> Seamless(w, since, interval, i)
  {
    var f := FrameOf(since, interval);
    SamplesAgree(since, interval, w, i);
    hide InSlot, In, GoodIn, Follows, Close, FrameOf, Pair;
    ContiguousIsSeamless(f, since, interval, w, i);
  }

  // Slots and indices agree, and so do the two ways to say that a sample continues the one before it.
  ghost predicate Agree(f: Frame, since: int, interval: int, w: seq<Sample>, i: int) {
    forall k :: 0 <= k < |w| ==> AgreeAt(f, since, interval, w, i, k)
  }

  predicate AgreeAt(f: Frame, since: int, interval: int, w: seq<Sample>, i: int, k: nat)
    requires k < |w|
  {
    && (In(f, w, k, i - 1) <==> InSlot(since, i - 1, w[k].at))
    && (In(f, w, k, i) <==> InSlot(since, i, w[k].at))
    && (GoodIn(f, w, k, i - 1) <==> In(f, w, k, i - 1) && w[k].class_ == "ok")
    && (GoodIn(f, w, k, i) <==> In(f, w, k, i) && w[k].class_ == "ok")
    && (Good(w[k]) <==> w[k].class_ == "ok")
    && (Follows(w, k, interval) <==> k > 0 && Close(f, w, k) && w[k - 1].class_ == "ok" && w[k].class_ == "ok")
  }

  lemma SamplesAgree(since: int, interval: int, w: seq<Sample>, i: int)
    requires AllAfter(w, since) && 0 < i < 288
    ensures Agree(FrameOf(since, interval), since, interval, w, i)
  {
    var f := FrameOf(since, interval);
    GoodInIn(f, w, i - 1);
    GoodInIn(f, w, i);
    forall k | 0 <= k < |w| ensures AgreeAt(f, since, interval, w, i, k) {
      SlotMeans(f, w[k].at, i - 1);
      SlotMeans(f, w[k].at, i);
      PairMeans(since, interval, w, k);
      hide InSlot, Follows, Index, FrameOf;
    }
  }

  lemma ContiguousIsSeamless(f: Frame, since: int, interval: int, w: seq<Sample>, i: int)
    requires Agree(f, since, interval, w, i)
    ensures Contiguous(f, w, i - 1, i) <==> Seamless(w, since, interval, i)
  {
    hide InSlot, In, GoodIn, Follows, Close, Good;
    if Contiguous(f, w, i - 1, i) {
      SamplesInSlots(f, since, interval, w, i);
      forall k | 0 <= k < |w| && Either(w, since, i, k) ensures w[k].class_ == "ok" {
        assert AgreeAt(f, since, interval, w, i, k);
      }
      forall k | 0 < k < |w| && Either(w, since, i, k - 1) && Either(w, since, i, k) ensures Follows(w, k, interval) {
        assert AgreeAt(f, since, interval, w, i, k - 1) && AgreeAt(f, since, interval, w, i, k);
      }
    }
    if Seamless(w, since, interval, i) {
      SlotsHaveSamples(f, since, interval, w, i);
      forall k | 0 <= k < |w| && (In(f, w, k, i - 1) || In(f, w, k, i)) ensures Good(w[k]) {
        assert AgreeAt(f, since, interval, w, i, k);
      }
      SlotsUnbroken(f, since, interval, w, i, i - 1, i - 1);
      SlotsUnbroken(f, since, interval, w, i, i - 1, i);
      SlotsUnbroken(f, since, interval, w, i, i, i);
      SlotsUnbroken(f, since, interval, w, i, i, i - 1);
    }
  }

  lemma SlotsUnbroken(f: Frame, since: int, interval: int, w: seq<Sample>, i: int, g: int, h: int)
    requires Agree(f, since, interval, w, i) && Seamless(w, since, interval, i) && g in {i - 1, i} && h in {i - 1, i}
    ensures Unbroken(f, w, g, h)
  {
    hide InSlot, In, GoodIn, Follows, Close, Good;
    forall k | 0 < k < |w| && In(f, w, k - 1, g) && In(f, w, k, h) ensures Close(f, w, k) {
      assert AgreeAt(f, since, interval, w, i, k - 1) && AgreeAt(f, since, interval, w, i, k);
      assert Either(w, since, i, k - 1) && Either(w, since, i, k);
    }
  }

  lemma SamplesInSlots(f: Frame, since: int, interval: int, w: seq<Sample>, i: int)
    requires Agree(f, since, interval, w, i) && Occupied(f, w, i - 1) && Occupied(f, w, i)
    ensures HasSample(w, since, i - 1) && HasSample(w, since, i)
  {
    hide InSlot, In, GoodIn, Follows, Close;
    var j :| 0 <= j < |w| && GoodIn(f, w, j, i - 1);
    var k :| 0 <= k < |w| && GoodIn(f, w, k, i);
    assert AgreeAt(f, since, interval, w, i, j) && AgreeAt(f, since, interval, w, i, k);
  }

  lemma SlotsHaveSamples(f: Frame, since: int, interval: int, w: seq<Sample>, i: int)
    requires Agree(f, since, interval, w, i) && Seamless(w, since, interval, i)
    ensures Occupied(f, w, i - 1) && Occupied(f, w, i)
  {
    hide InSlot, In, GoodIn, Follows, Close;
    var j :| 0 <= j < |w| && InSlot(since, i - 1, w[j].at);
    var k :| 0 <= k < |w| && InSlot(since, i, w[k].at);
    assert AgreeAt(f, since, interval, w, i, j) && AgreeAt(f, since, interval, w, i, k);
    assert Either(w, since, i, j) && Either(w, since, i, k);
  }

  lemma GoodInIn(f: Frame, w: seq<Sample>, i: int)
    ensures forall k :: 0 <= k < |w| ==> (GoodIn(f, w, k, i) <==> In(f, w, k, i) && w[k].class_ == "ok")
  {
  }
}
