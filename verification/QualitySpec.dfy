// What the probe samples of a window mean: per bucket, over all buckets, and between neighbours.
module QualitySpec {
  import opened Clock
  import opened Prober

  const BUCKETS := 288
  const BUCKET_WIDTH: int := 300_000_000_000

  datatype Sample = Sample(at: int, class_: string, ms: int)

  // The start of the window and the longest gap that still counts as contiguous.
  datatype Frame = Frame(since: int, maxGap: int)

  predicate Good(s: Sample) { s.class_ == CLASS_OK }

  function InWindow(results: seq<Sample>, since: int, until: int): seq<Sample> {
    if results == [] then []
    else
      var r := results[|results| - 1];
      InWindow(results[..|results| - 1], since, until) + (if since < r.at <= until then [r] else [])
  }

  function Index(f: Frame, at: int): int {
    Min((at - f.since) / 300_000_000_000, BUCKETS - 1)
  }

  // Two consecutive ok samples without a gap.
  predicate Pair(f: Frame, w: seq<Sample>, k: nat)
    requires k < |w|
  {
    k > 0 && Good(w[k - 1]) && Good(w[k]) && 0 < w[k].at - w[k - 1].at <= f.maxGap
  }

  function Abs(x: int): nat { if x < 0 then -x else x }

  datatype Measure = Oks | Failures | Excluded | Pairs | Variation | Latency

  // What sample k adds to a measure.
  function Value(f: Frame, w: seq<Sample>, k: nat, m: Measure): int
    requires k < |w|
  {
    match m
    case Oks => if Good(w[k]) then 1 else 0
    case Failures => if !Good(w[k]) && IsFailure(w[k].class_) then 1 else 0
    case Excluded => if !Good(w[k]) && !IsFailure(w[k].class_) then 1 else 0
    case Pairs => if Pair(f, w, k) then 1 else 0
    case Variation => if Pair(f, w, k) then Abs(w[k].ms - w[k - 1].ms) else 0
    case Latency => if Good(w[k]) then w[k].ms else 0
  }

  // The total of a measure over one bucket's samples, or over all.
  function Tally(f: Frame, w: seq<Sample>, bucket: Option<int>, m: Measure): int {
    if w == [] then 0
    else
      var k := |w| - 1;
      Tally(f, w[..k], bucket, m) + (if bucket.None? || Index(f, w[k].at) == bucket.value then Value(f, w, k, m) else 0)
  }

  predicate In(f: Frame, w: seq<Sample>, k: nat, i: int)
    requires k < |w|
  {
    Index(f, w[k].at) == i
  }

  predicate GoodIn(f: Frame, w: seq<Sample>, k: nat, i: int)
    requires k < |w|
  {
    Good(w[k]) && Index(f, w[k].at) == i
  }

  // A gap between two ok samples of one bucket: sample k continues neither its predecessor nor an empty bucket.
  predicate GapAt(f: Frame, w: seq<Sample>, k: nat, i: int)
    requires k < |w|
  {
    GoodIn(f, w, k, i) && k > 0 && Good(w[k - 1]) && !Pair(f, w, k) && exists j :: 0 <= j < k && GoodIn(f, w, j, i)
  }

  datatype Bucket = Bucket(count: int, failures: int, excluded: int, pairs: int,
                           sum: int, low: int, high: int, variation: int,
                           first: int, last: int, broken: bool)

  const EmptyBucket := Bucket(0, 0, 0, 0, 0, 0, 0, 0, 0, 0, false)

  predicate Counted(f: Frame, w: seq<Sample>, i: int, b: Bucket) {
    && b.count == Tally(f, w, Some(i), Oks)
    && b.failures == Tally(f, w, Some(i), Failures)
    && b.excluded == Tally(f, w, Some(i), Excluded)
    && b.pairs == Tally(f, w, Some(i), Pairs)
    && b.variation == Tally(f, w, Some(i), Variation)
    && b.sum == Tally(f, w, Some(i), Latency)
  }

  // low and high bound the bucket's ok latencies, and low is one of them; high starts from zero.
  ghost predicate Bounded(f: Frame, w: seq<Sample>, i: int, b: Bucket) {
    && 0 <= b.high
    && (forall k :: 0 <= k < |w| && GoodIn(f, w, k, i) ==> b.low <= w[k].ms <= b.high)
    && (b.count > 0 ==> exists k :: 0 <= k < |w| && GoodIn(f, w, k, i) && w[k].ms == b.low)
    && (b.high > 0 ==> exists k :: 0 <= k < |w| && GoodIn(f, w, k, i) && w[k].ms == b.high)
  }

  predicate FirstGood(f: Frame, w: seq<Sample>, k: nat, i: int)
    requires k < |w|
  {
    GoodIn(f, w, k, i) && forall j :: 0 <= j < k ==> !GoodIn(f, w, j, i)
  }

  predicate LastGood(f: Frame, w: seq<Sample>, k: nat, i: int)
    requires k < |w|
  {
    GoodIn(f, w, k, i) && forall j :: k < j < |w| ==> !GoodIn(f, w, j, i)
  }

  // first and last are the times of the bucket's first and last ok samples.
  ghost predicate Delimited(f: Frame, w: seq<Sample>, i: int, b: Bucket) {
    && (b.count == 0 <==> forall k :: 0 <= k < |w| ==> !GoodIn(f, w, k, i))
    && (b.count > 0 ==> exists k :: 0 <= k < |w| && FirstGood(f, w, k, i) && w[k].at == b.first)
    && (b.count > 0 ==> exists k :: 0 <= k < |w| && LastGood(f, w, k, i) && w[k].at == b.last)
  }

  predicate Breaks(f: Frame, w: seq<Sample>, k: nat, i: int)
    requires k < |w|
  {
    (In(f, w, k, i) && !Good(w[k])) || GapAt(f, w, k, i)
  }

  // A bucket is broken by a sample that is not ok, or by a gap inside it.
  ghost predicate BrokenIff(f: Frame, w: seq<Sample>, i: int, b: Bucket) {
    b.broken <==> exists k :: 0 <= k < |w| && Breaks(f, w, k, i)
  }

  ghost predicate Describes(f: Frame, w: seq<Sample>, i: int, b: Bucket) {
    Counted(f, w, i, b) && Bounded(f, w, i, b) && Delimited(f, w, i, b) && BrokenIff(f, w, i, b) && 0 <= b.count
  }

  // What one more sample does to its bucket; pair tells whether it continues the sample before it.
  function WithNotOk(b: Bucket, failure: bool): Bucket {
    if failure then b.(failures := b.failures + 1, broken := true) else b.(excluded := b.excluded + 1, broken := true)
  }

  function WithOk(b: Bucket, s: Sample, afterOk: bool, pair: bool, delta: int): Bucket {
    var low := if b.count == 0 then s.ms else b.low;
    b.(count := b.count + 1, sum := b.sum + s.ms, low := Min(low, s.ms), high := Max(b.high, s.ms),
       first := if b.count == 0 then s.at else b.first, last := s.at,
       pairs := if pair then b.pairs + 1 else b.pairs,
       variation := if pair then b.variation + delta else b.variation,
       broken := b.broken || (afterOk && !pair && b.count > 0))
  }

  // ---- one more sample ----

  lemma TallyStep(f: Frame, w: seq<Sample>, s: Sample, bucket: Option<int>, m: Measure)
    ensures Tally(f, w + [s], bucket, m) == Tally(f, w, bucket, m)
      + (if bucket.None? || Index(f, s.at) == bucket.value then Value(f, w + [s], |w|, m) else 0)
  {
    assert (w + [s])[..|w|] == w;
  }

  lemma CountedStep(f: Frame, w: seq<Sample>, s: Sample, i: int, b: Bucket)
    requires Counted(f, w, i, b)
    ensures Index(f, s.at) != i ==> Counted(f, w + [s], i, b)
    ensures Index(f, s.at) == i && !Good(s) ==> Counted(f, w + [s], i, WithNotOk(b, IsFailure(s.class_)))
    ensures Index(f, s.at) == i && Good(s) ==>
      var afterOk, pair := |w| > 0 && Good(w[|w| - 1]), Pair(f, w + [s], |w|);
      Counted(f, w + [s], i, WithOk(b, s, afterOk, pair, if |w| > 0 then Abs(s.ms - w[|w| - 1].ms) else 0))
  {
    hide Tally, IsFailure, Index;
    TallyStep(f, w, s, Some(i), Oks);
    TallyStep(f, w, s, Some(i), Failures);
    TallyStep(f, w, s, Some(i), Excluded);
    TallyStep(f, w, s, Some(i), Pairs);
    TallyStep(f, w, s, Some(i), Variation);
    TallyStep(f, w, s, Some(i), Latency);
  }

  lemma GoodInStep(f: Frame, w: seq<Sample>, s: Sample, i: int)
    ensures forall k :: 0 <= k < |w| ==> GoodIn(f, w + [s], k, i) == GoodIn(f, w, k, i)
    ensures GoodIn(f, w + [s], |w|, i) <==> Good(s) && Index(f, s.at) == i
  {
  }

  lemma BoundedStep(f: Frame, w: seq<Sample>, s: Sample, i: int, b: Bucket, b': Bucket)
    requires Bounded(f, w, i, b) && Delimited(f, w, i, b) && 0 <= b.count
    requires if Good(s) && Index(f, s.at) == i then
        && b'.count == b.count + 1 && b'.high == Max(b.high, s.ms)
        && b'.low == Min(if b.count == 0 then s.ms else b.low, s.ms)
      else b'.count == b.count && b'.high == b.high && b'.low == b.low
    ensures Bounded(f, w + [s], i, b')
  {
    GoodInStep(f, w, s, i);
    hide GoodIn, Index;
    var more := w + [s];
    if b.count > 0 {
      var k :| 0 <= k < |w| && GoodIn(f, w, k, i) && w[k].ms == b.low;
      assert GoodIn(f, more, k, i) && more[k].ms == b.low;
    }
    if b.high > 0 {
      var k :| 0 <= k < |w| && GoodIn(f, w, k, i) && w[k].ms == b.high;
      assert GoodIn(f, more, k, i) && more[k].ms == b.high;
    }
    assert more[|w|] == s;
  }

  lemma DelimitedStep(f: Frame, w: seq<Sample>, s: Sample, i: int, b: Bucket, b': Bucket)
    requires Delimited(f, w, i, b) && 0 <= b.count
    requires if Good(s) && Index(f, s.at) == i then
        b'.count == b.count + 1 && b'.last == s.at && b'.first == (if b.count == 0 then s.at else b.first)
      else b'.count == b.count && b'.first == b.first && b'.last == b.last
    ensures Delimited(f, w + [s], i, b')
  {
    GoodInStep(f, w, s, i);
    hide GoodIn, Index;
    var more := w + [s];
    if b.count > 0 {
      var k :| 0 <= k < |w| && FirstGood(f, w, k, i) && w[k].at == b.first;
      assert FirstGood(f, more, k, i) && more[k].at == b.first;
      var l :| 0 <= l < |w| && LastGood(f, w, l, i) && w[l].at == b.last;
      if GoodIn(f, more, |w|, i) {
        assert LastGood(f, more, |w|, i) && more[|w|].at == b'.last;
      } else {
        assert LastGood(f, more, l, i) && more[l].at == b.last;
      }
    } else if GoodIn(f, more, |w|, i) {
      assert FirstGood(f, more, |w|, i) && LastGood(f, more, |w|, i) && more[|w|] == s;
    }
  }

  lemma BrokenStep(f: Frame, w: seq<Sample>, s: Sample, i: int, b: Bucket, b': Bucket)
    requires BrokenIff(f, w, i, b) && Delimited(f, w, i, b)
    requires b'.broken == (b.broken || (Index(f, s.at) == i
      && (!Good(s) || (|w| > 0 && Good(w[|w| - 1]) && !Pair(f, w + [s], |w|) && b.count != 0))))
    ensures BrokenIff(f, w + [s], i, b')
  {
    GoodInStep(f, w, s, i);
    GapStep(f, w, s, i);
    var more := w + [s];
    assert In(f, more, |w|, i) <==> Index(f, s.at) == i;
    assert b.count != 0 <==> exists j :: 0 <= j < |w| && GoodIn(f, w, j, i);
    hide Index, GapAt, GoodIn, Pair;
    assert forall k :: 0 <= k < |w| ==> Breaks(f, more, k, i) == Breaks(f, w, k, i);
    assert b'.broken == (b.broken || Breaks(f, more, |w|, i));
    if b.broken {
      var k :| 0 <= k < |w| && Breaks(f, w, k, i);
      assert Breaks(f, more, k, i);
    }
  }

  lemma GapStep(f: Frame, w: seq<Sample>, s: Sample, i: int)
    ensures forall k :: 0 <= k < |w| ==> GapAt(f, w + [s], k, i) == GapAt(f, w, k, i)
    ensures GapAt(f, w + [s], |w|, i) <==>
      && Good(s) && Index(f, s.at) == i && |w| > 0 && Good(w[|w| - 1]) && !Pair(f, w + [s], |w|)
      && exists j :: 0 <= j < |w| && GoodIn(f, w, j, i)
  {
    GoodInStep(f, w, s, i);
    hide Index;
    forall k | 0 <= k < |w| ensures GapAt(f, w + [s], k, i) == GapAt(f, w, k, i) {
      assert Pair(f, w + [s], k) == Pair(f, w, k);
    }
  }

  // A sample changes its own bucket as the accumulator says, and no other.
  lemma DescribesStep(f: Frame, w: seq<Sample>, s: Sample, i: int, b: Bucket)
    requires Describes(f, w, i, b)
    ensures Index(f, s.at) != i ==> Describes(f, w + [s], i, b)
    ensures Index(f, s.at) == i && !Good(s) ==> Describes(f, w + [s], i, WithNotOk(b, IsFailure(s.class_)))
    ensures Index(f, s.at) == i && Good(s) ==>
      var afterOk, pair := |w| > 0 && Good(w[|w| - 1]), Pair(f, w + [s], |w|);
      Describes(f, w + [s], i, WithOk(b, s, afterOk, pair, if |w| > 0 then Abs(s.ms - w[|w| - 1].ms) else 0))
  {
    var afterOk, pair := |w| > 0 && Good(w[|w| - 1]), Pair(f, w + [s], |w|);
    var b' := if Index(f, s.at) != i then b
              else if !Good(s) then WithNotOk(b, IsFailure(s.class_))
              else WithOk(b, s, afterOk, pair, if |w| > 0 then Abs(s.ms - w[|w| - 1].ms) else 0);
    hide Counted, Bounded, Delimited, BrokenIff, Index, IsFailure, Pair;
    CountedStep(f, w, s, i, b);
    BoundedStep(f, w, s, i, b, b');
    DelimitedStep(f, w, s, i, b, b');
    BrokenStep(f, w, s, i, b, b');
  }

  lemma EmptyDescribes(f: Frame, i: int)
    ensures Describes(f, [], i, EmptyBucket)
  {
  }

  // ---- conservation ----

  function SumOver(f: Frame, w: seq<Sample>, n: nat, m: Measure): int {
    if n == 0 then 0 else SumOver(f, w, n - 1, m) + Tally(f, w, Some(n - 1), m)
  }

  predicate AllAfter(w: seq<Sample>, since: int) {
    forall k :: 0 <= k < |w| ==> since < w[k].at
  }

  lemma {:induction false} SumOverStep(f: Frame, w: seq<Sample>, s: Sample, n: nat, m: Measure)
    ensures SumOver(f, w + [s], n, m) == SumOver(f, w, n, m) + (if 0 <= Index(f, s.at) < n then Value(f, w + [s], |w|, m) else 0)
  {
    if n > 0 {
      SumOverStep(f, w, s, n - 1, m);
      TallyStep(f, w, s, Some(n - 1), m);
    }
    hide Value, Tally;
  }

  // Every measure, summed over the buckets, is its total over the window.
  lemma {:induction false} BucketsConserve(f: Frame, w: seq<Sample>, m: Measure)
    requires AllAfter(w, f.since)
    ensures SumOver(f, w, BUCKETS, m) == Tally(f, w, None, m)
  {
    if w == [] {
      NothingToSum(f, BUCKETS, m);
    } else {
      var init, s := w[..|w| - 1], w[|w| - 1];
      assert w == init + [s];
      BucketsConserve(f, init, m);
      SumOverStep(f, init, s, BUCKETS, m);
      TallyStep(f, init, s, None, m);
    }
  }

  lemma {:induction false} NothingToSum(f: Frame, n: nat, m: Measure)
    ensures SumOver(f, [], n, m) == 0
  {
    if n > 0 {
      NothingToSum(f, n - 1, m);
    }
  }

  // Every sample is ok, failed or excluded.
  lemma {:induction false} KindsPartition(f: Frame, w: seq<Sample>)
    ensures Tally(f, w, None, Oks) + Tally(f, w, None, Failures) + Tally(f, w, None, Excluded) == |w|
  {
    if w != [] {
      KindsPartition(f, w[..|w| - 1]);
    }
  }

  // The one bucket of a sample covers its time; the last one includes the end of a 24 hour window.
  lemma SampleIsCovered(f: Frame, at: int, i: int)
    requires f.since < at <= f.since + BUCKETS * BUCKET_WIDTH && 0 <= i < BUCKETS
    ensures Index(f, at) == i
      <==> || f.since + i * BUCKET_WIDTH <= at < f.since + (i + 1) * BUCKET_WIDTH
           || (i == BUCKETS - 1 && at == f.since + BUCKETS * BUCKET_WIDTH)
  {
  }

  // ---- which neighbours may be joined ----

  predicate SortedByTime(w: seq<Sample>) {
    forall j, k :: 0 <= j <= k < |w| ==> w[j].at <= w[k].at
  }

  // The chart's test for joining bucket b to its neighbour prev.
  predicate Connects(prev: Bucket, b: Bucket, maxGap: int) {
    prev.count > 0 && !prev.broken && !b.broken && b.first - prev.last <= maxGap
  }

  // Sample k follows its predecessor without a gap.
  predicate Close(f: Frame, w: seq<Sample>, k: nat)
    requires k < |w|
  {
    k > 0 && 0 < w[k].at - w[k - 1].at <= f.maxGap
  }

  ghost predicate Occupied(f: Frame, w: seq<Sample>, i: int) {
    exists k :: 0 <= k < |w| && GoodIn(f, w, k, i)
  }

  ghost predicate Clean(f: Frame, w: seq<Sample>, i: int) {
    forall k :: 0 <= k < |w| && In(f, w, k, i) ==> Good(w[k])
  }

  // Consecutive samples, the earlier in bucket h and the later in bucket i, leave no gap.
  ghost predicate Unbroken(f: Frame, w: seq<Sample>, h: int, i: int) {
    forall k :: 0 < k < |w| && In(f, w, k - 1, h) && In(f, w, k, i) ==> Close(f, w, k)
  }

  // Both buckets have ok samples and nothing else, and consecutive samples across the two leave no gap.
  ghost predicate Contiguous(f: Frame, w: seq<Sample>, h: int, i: int) {
    && Occupied(f, w, h) && Clean(f, w, h) && Occupied(f, w, i) && Clean(f, w, i)
    && Unbroken(f, w, h, h) && Unbroken(f, w, h, i) && Unbroken(f, w, i, i) && Unbroken(f, w, i, h)
  }

  lemma IndexMonotone(f: Frame, s: int, t: int)
    requires s <= t
    ensures Index(f, s) <= Index(f, t)
  {
  }

  lemma IndicesAscend(f: Frame, w: seq<Sample>)
    requires SortedByTime(w)
    ensures forall j, k :: 0 <= j <= k < |w| ==> Index(f, w[j].at) <= Index(f, w[k].at)
  {
    forall j, k | 0 <= j <= k < |w| ensures Index(f, w[j].at) <= Index(f, w[k].at) {
      IndexMonotone(f, w[j].at, w[k].at);
    }
  }

  // What the broken flag of a bucket stands for.
  lemma UnbrokenIff(f: Frame, w: seq<Sample>, i: int, b: Bucket)
    requires SortedByTime(w) && BrokenIff(f, w, i, b)
    ensures !b.broken <==> Clean(f, w, i) && Unbroken(f, w, i, i)
  {
    if !b.broken {
      forall k | 0 <= k < |w| && In(f, w, k, i) ensures Good(w[k]) {
        assert !Breaks(f, w, k, i);
      }
      forall k | 0 < k < |w| && In(f, w, k - 1, i) && In(f, w, k, i) ensures Close(f, w, k) {
        assert !Breaks(f, w, k, i) && !Breaks(f, w, k - 1, i);
        assert GoodIn(f, w, k - 1, i);
      }
    } else {
      var k :| 0 <= k < |w| && Breaks(f, w, k, i);
      if Clean(f, w, i) {
        var j :| 0 <= j < k && GoodIn(f, w, j, i);
        IndexMonotone(f, w[j].at, w[k - 1].at);
        IndexMonotone(f, w[k - 1].at, w[k].at);
        assert In(f, w, k - 1, i) && !Close(f, w, k);
      }
    }
  }

  // Between two clean neighbours the last sample of one is directly followed by the first of the other.
  lemma Seam(f: Frame, w: seq<Sample>, i: int, prev: Bucket, b: Bucket) returns (first: nat)
    requires SortedByTime(w) && Delimited(f, w, i - 1, prev) && Delimited(f, w, i, b) && 0 < prev.count && 0 < b.count
    requires Clean(f, w, i - 1) && Clean(f, w, i)
    ensures 0 < first < |w| && GoodIn(f, w, first - 1, i - 1) && GoodIn(f, w, first, i)
    ensures w[first].at == b.first && w[first - 1].at == prev.last && w[first - 1].at < w[first].at
    ensures forall k :: 0 < k < |w| && In(f, w, k - 1, i - 1) && In(f, w, k, i) ==> k == first
  {
    IndicesAscend(f, w);
    hide Index;
    first :| 0 <= first < |w| && FirstGood(f, w, first, i) && w[first].at == b.first;
    var last :| 0 <= last < |w| && LastGood(f, w, last, i - 1) && w[last].at == prev.last;
    assert last < first && w[last].at != w[first].at;
    assert In(f, w, last + 1, i - 1) || In(f, w, last + 1, i);
    assert GoodIn(f, w, last + 1, i - 1) || GoodIn(f, w, last + 1, i);
    assert first == last + 1;
    forall k | 0 < k < |w| && In(f, w, k - 1, i - 1) && In(f, w, k, i) ensures k == first {
      assert GoodIn(f, w, k - 1, i - 1) && GoodIn(f, w, k, i);
    }
  }

  // Two neighbouring non-empty buckets are joined exactly when their samples are contiguous, and a
  // joined bucket always has a variation.
  lemma JoinedIff(f: Frame, w: seq<Sample>, i: int, prev: Bucket, b: Bucket)
    requires SortedByTime(w) && Describes(f, w, i - 1, prev) && Describes(f, w, i, b)
    requires b.count + b.failures + b.excluded > 0
    ensures Connects(prev, b, f.maxGap) <==> Contiguous(f, w, i - 1, i)
    ensures Connects(prev, b, f.maxGap) ==> b.pairs > 0
  {
    UnbrokenIff(f, w, i - 1, prev);
    UnbrokenIff(f, w, i, b);
    NonEmptyHasSample(f, w, i, b);
    BackwardsNever(f, w, i);
    hide BrokenIff, Bounded, Index;
    if Clean(f, w, i) {
      var k :| 0 <= k < |w| && In(f, w, k, i);
      assert GoodIn(f, w, k, i);
    }
    if Clean(f, w, i - 1) && Clean(f, w, i) && prev.count > 0 && b.count > 0 {
      var first := Seam(f, w, i, prev, b);
      hide Delimited;
      assert In(f, w, first - 1, i - 1) && In(f, w, first, i);
      assert Unbroken(f, w, i - 1, i) <==> Close(f, w, first);
      if Close(f, w, first) {
        TallyPositive(f, w, i, first);
      }
    }
  }

  lemma BackwardsNever(f: Frame, w: seq<Sample>, i: int)
    requires SortedByTime(w)
    ensures Unbroken(f, w, i, i - 1)
  {
    IndicesAscend(f, w);
  }

  lemma {:induction false} NonEmptyHasSample(f: Frame, w: seq<Sample>, i: int, b: Bucket)
    requires b.count == Tally(f, w, Some(i), Oks) && b.failures == Tally(f, w, Some(i), Failures) && b.excluded == Tally(f, w, Some(i), Excluded)
    requires b.count + b.failures + b.excluded > 0
    ensures exists k :: 0 <= k < |w| && In(f, w, k, i)
  {
    if w != [] {
      var init, s := w[..|w| - 1], w[|w| - 1];
      assert w == init + [s];
      if Index(f, s.at) == i {
        assert In(f, w, |w| - 1, i);
      } else {
        NonEmptyHasSample(f, init, i, b);
        var k :| 0 <= k < |init| && In(f, init, k, i);
        assert In(f, w, k, i);
      }
    }
  }

  lemma {:induction false} TallyPositive(f: Frame, w: seq<Sample>, i: int, k: nat)
    requires k < |w| && In(f, w, k, i) && Pair(f, w, k)
    ensures Tally(f, w, Some(i), Pairs) > 0
  {
    TallyNonNegative(f, w[..|w| - 1], i);
    if k < |w| - 1 {
      assert Pair(f, w[..|w| - 1], k);
      TallyPositive(f, w[..|w| - 1], i, k);
    }
  }

  lemma {:induction false} TallyNonNegative(f: Frame, w: seq<Sample>, i: int)
    ensures Tally(f, w, Some(i), Pairs) >= 0 && Tally(f, w, Some(i), Oks) >= 0 && Tally(f, w, Some(i), Variation) >= 0
  {
    if w != [] {
      TallyNonNegative(f, w[..|w| - 1], i);
    }
  }

  // ---- means lie between the extremes ----

  lemma {:induction false} SumBetween(f: Frame, w: seq<Sample>, i: int, low: int, high: int)
    requires forall k :: 0 <= k < |w| && GoodIn(f, w, k, i) ==> low <= w[k].ms <= high
    ensures low * Tally(f, w, Some(i), Oks) <= Tally(f, w, Some(i), Latency) <= high * Tally(f, w, Some(i), Oks)
  {
    if w != [] {
      var init, s := w[..|w| - 1], w[|w| - 1];
      assert w == init + [s];
      GoodInStep(f, init, s, i);
      SumBetween(f, init, i, low, high);
      TallyStep(f, init, s, Some(i), Oks);
      TallyStep(f, init, s, Some(i), Latency);
      hide Tally, Index;
      var n := Tally(f, init, Some(i), Oks);
      assert low * (n + 1) == low * n + low && high * (n + 1) == high * n + high;
    }
  }
}
