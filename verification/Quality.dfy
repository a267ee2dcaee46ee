// One pass over the probe samples of a hostname: buckets, totals and rank statistics.
module Quality {
  import opened Clock
  import opened Prober
  import opened QualitySpec
  import opened QualityRanks

  datatype Quality = Quality(samples: int, successful: int, failures: int, excluded: int,
                             lastSample: Option<int>, stale: bool,
                             median: Option<real>, p95: Option<int>,
                             variation: Option<real>, failurePercent: Option<real>)

  function FrameOf(since: int, interval: int): Frame {
    Frame(since, interval + Halve(interval))
  }

  function Latencies(w: seq<Sample>): seq<int> {
    if w == [] then []
    else Latencies(w[..|w| - 1]) + (if Good(w[|w| - 1]) then [w[|w| - 1].ms] else [])
  }

  // What the figures of a window are.
  function Summary(f: Frame, w: seq<Sample>, until: int): Quality {
    var ok, failed := Tally(f, w, None, Oks), Tally(f, w, None, Failures);
    var pairs, sorted := Tally(f, w, None, Pairs), Sort(Latencies(w));
    Quality(|w|, ok, failed, Tally(f, w, None, Excluded),
            if w == [] then None else Some(w[|w| - 1].at),
            w != [] && until - w[|w| - 1].at > f.maxGap,
            if sorted == [] then None else Some(MedianOf(sorted)),
            if sorted == [] then None else Some(P95Of(sorted)),
            if pairs > 0 then Some(Tally(f, w, None, Variation) as real / pairs as real) else None,
            if ok + failed > 0 then Some(100.0 * failed as real / (ok + failed) as real) else None)
  }

  // Running totals of the pass, next to the buckets.
  datatype Totals = Totals(samples: int, successful: int, failures: int, excluded: int, pairs: int, variation: int,
                           latencies: seq<int>, previous: Option<Sample>, last: Option<int>)

  ghost predicate Totalled(f: Frame, w: seq<Sample>, t: Totals) {
    && t.samples == |w| && t.successful == Tally(f, w, None, Oks) && t.failures == Tally(f, w, None, Failures)
    && t.excluded == Tally(f, w, None, Excluded)
    && t.pairs == Tally(f, w, None, Pairs) && t.variation == Tally(f, w, None, Variation)
    && t.latencies == Latencies(w)
    && t.previous == (if w != [] && Good(w[|w| - 1]) then Some(w[|w| - 1]) else None)
    && t.last == (if w != [] then Some(w[|w| - 1].at) else None)
  }

  ghost predicate AllDescribed(f: Frame, w: seq<Sample>, buckets: seq<Bucket>) {
    |buckets| == BUCKETS && forall i :: 0 <= i < BUCKETS ==> Describes(f, w, i, buckets[i])
  }

  // The pass over the results: figures and buckets.
  method Classify(since: int, until: int, results: seq<Sample>, interval: int)
    returns (q: Quality, filled: seq<Bucket>)
    ensures q == Summary(FrameOf(since, interval), InWindow(results, since, until), until)
    ensures AllDescribed(FrameOf(since, interval), InWindow(results, since, until), filled)
  {
    hide Describes, Tally, Sort, MedianOf, P95Of, Latencies;
    var buckets := new Bucket[BUCKETS](_ => EmptyBucket);
    var f := FrameOf(since, interval);
    var t := Totals(0, 0, 0, 0, 0, 0, [], None, None);
    ghost var w: seq<Sample> := [];
    NothingYet(f);
    assert results[..0] == [];
    for n := 0 to |results|
      invariant w == InWindow(results[..n], since, until) && AllAfter(w, since)
      invariant AllDescribed(f, w, buckets[..]) && Totalled(f, w, t)
    {
      var r := results[n];
      assert results[..n + 1][..n] == results[..n];
      if r.at <= since || until < r.at {
        continue;
      }
      t := AddSample(buckets, f, r, t, w);
      w := w + [r];
    }
    assert results[..|results|] == results;
    filled := buckets[..];

    var median, p95 := None, None;
    SortedLength(t.latencies);
    if |t.latencies| > 0 {
      var sorted := Sort(t.latencies);
      median, p95 := Some(MedianOf(sorted)), Some(P95Of(sorted));
    }
    var variation, percent := None, None;
    if t.pairs > 0 {
      variation := Some(t.variation as real / t.pairs as real);
    }
    if t.successful + t.failures > 0 {
      percent := Some(100.0 * t.failures as real / (t.successful + t.failures) as real);
    }
    q := Quality(t.samples, t.successful, t.failures, t.excluded, t.last,
                 t.last.Some? && until - t.last.value > f.maxGap, median, p95, variation, percent);
  }

  lemma NothingYet(f: Frame)
    ensures forall i :: 0 <= i < BUCKETS ==> Describes(f, [], i, EmptyBucket)
    ensures Totalled(f, [], Totals(0, 0, 0, 0, 0, 0, [], None, None))
    ensures InWindow([], 0, 0) == []
  {
    forall i | 0 <= i < BUCKETS ensures Describes(f, [], i, EmptyBucket) {
      EmptyDescribes(f, i);
    }
  }

  lemma SortedLength(s: seq<int>)
    ensures |Sort(s)| == |s|
  {
    Sorts(s);
  }

  // Classifies one sample into its bucket and the totals.
  method AddSample(buckets: array<Bucket>, f: Frame, r: Sample, t: Totals, ghost w: seq<Sample>) returns (t': Totals)
    requires AllDescribed(f, w, buckets[..]) && Totalled(f, w, t) && f.since < r.at
    modifies buckets
    ensures AllDescribed(f, w + [r], buckets[..]) && Totalled(f, w + [r], t')
  {
    var index := Min((r.at - f.since) / 300_000_000_000, BUCKETS - 1);
    ghost var was := buckets[..];
    t' := AddToTotals(f, r, t, w);
    var b := AddToBucket(buckets[index], f, r, t.previous);
    hide AllDescribed, Totalled, WithOk, WithNotOk, IsFailure;
    assert b == if !Good(r) then WithNotOk(was[index], IsFailure(r.class_)) else
      WithOk(was[index], r, |w| > 0 && Good(w[|w| - 1]), Pair(f, w + [r], |w|), if |w| > 0 then Abs(r.ms - w[|w| - 1].ms) else 0) by {
      if Good(r) {
        PreviousMeans(f, w, r, t, was[index]);
      }
    }
    buckets[index] := b;
    assert buckets[..] == was[index := b];
    BucketsStep(f, w, r, was, index, b);
  }

  predicate Continues(f: Frame, previous: Option<Sample>, r: Sample) {
    previous.Some? && 0 < r.at - previous.value.at <= f.maxGap
  }

  function DeltaTo(previous: Option<Sample>, r: Sample): int {
    if previous.Some? then Abs(r.ms - previous.value.ms) else 0
  }

  // The remembered previous sample says whether r continues the samples so far.
  lemma PreviousMeans(f: Frame, w: seq<Sample>, r: Sample, t: Totals, b: Bucket)
    requires Totalled(f, w, t) && Good(r)
    ensures WithOk(b, r, t.previous.Some?, Continues(f, t.previous, r), DeltaTo(t.previous, r))
      == WithOk(b, r, |w| > 0 && Good(w[|w| - 1]), Pair(f, w + [r], |w|), if |w| > 0 then Abs(r.ms - w[|w| - 1].ms) else 0)
  {
    hide Tally, Latencies;
  }

  method AddToBucket(was: Bucket, f: Frame, r: Sample, previous: Option<Sample>) returns (b: Bucket)
    ensures b == if !Good(r) then WithNotOk(was, IsFailure(r.class_))
      else WithOk(was, r, previous.Some?, Continues(f, previous, r), DeltaTo(previous, r))
  {
    hide IsFailure;
    b := was;
    if r.class_ != CLASS_OK {
      if IsFailure(r.class_) {
        b := b.(failures := b.failures + 1);
      } else {
        b := b.(excluded := b.excluded + 1);
      }
      return b.(broken := true);
    }
    if b.count == 0 {
      b := b.(first := r.at, low := r.ms);
    }
    b := b.(last := r.at, count := b.count + 1, sum := b.sum + r.ms, low := Min(b.low, r.ms), high := Max(b.high, r.ms));
    if previous.Some? {
      var gap := r.at - previous.value.at;
      if gap > 0 && gap <= f.maxGap {
        b := b.(variation := b.variation + Abs(r.ms - previous.value.ms), pairs := b.pairs + 1);
      } else if b.count > 1 {
        b := b.(broken := true);
      }
    }
  }

  method AddToTotals(f: Frame, r: Sample, t: Totals, ghost w: seq<Sample>) returns (t': Totals)
    requires Totalled(f, w, t)
    ensures Totalled(f, w + [r], t')
  {
    TotalsStep(f, w, r, t);
    hide Totalled, IsFailure, Abs;
    t' := t.(samples := t.samples + 1, last := Some(r.at));
    if r.class_ != CLASS_OK {
      if IsFailure(r.class_) {
        t' := t'.(failures := t'.failures + 1);
      } else {
        t' := t'.(excluded := t'.excluded + 1);
      }
      t' := t'.(previous := None);
      return;
    }
    t' := t'.(latencies := t'.latencies + [r.ms], successful := t'.successful + 1);
    if t.previous.Some? {
      var gap := r.at - t.previous.value.at;
      if gap > 0 && gap <= f.maxGap {
        t' := t'.(variation := t'.variation + Abs(r.ms - t.previous.value.ms), pairs := t'.pairs + 1);
      }
    }
    t' := t'.(previous := Some(r));
  }

  // The totals after one more sample.
  lemma TotalsStep(f: Frame, w: seq<Sample>, r: Sample, t: Totals)
    requires Totalled(f, w, t)
    ensures var pair := t.previous.Some? && 0 < r.at - t.previous.value.at <= f.maxGap;
      var moved := t.(samples := t.samples + 1, last := Some(r.at));
      Totalled(f, w + [r],
        if r.class_ != CLASS_OK then
          if IsFailure(r.class_) then moved.(failures := t.failures + 1, previous := None)
          else moved.(excluded := t.excluded + 1, previous := None)
        else moved.(successful := t.successful + 1, latencies := t.latencies + [r.ms], previous := Some(r),
                    pairs := if pair then t.pairs + 1 else t.pairs,
                    variation := if pair then t.variation + Abs(r.ms - t.previous.value.ms) else t.variation))
  {
    TallyStep(f, w, r, None, Oks);
    TallyStep(f, w, r, None, Failures);
    TallyStep(f, w, r, None, Excluded);
    TallyStep(f, w, r, None, Pairs);
    TallyStep(f, w, r, None, Variation);
    assert (w + [r])[..|w|] == w;
    assert Latencies(w + [r]) == Latencies(w) + (if Good(r) then [r.ms] else []);
    hide Tally, IsFailure, Latencies;
  }

  // The buckets after one more sample: only its own changes.
  lemma BucketsStep(f: Frame, w: seq<Sample>, r: Sample, was: seq<Bucket>, index: int, b: Bucket)
    requires AllDescribed(f, w, was) && 0 <= index < BUCKETS && index == Index(f, r.at)
    requires var afterOk, pair := |w| > 0 && Good(w[|w| - 1]), Pair(f, w + [r], |w|);
      b == if !Good(r) then WithNotOk(was[index], IsFailure(r.class_))
           else WithOk(was[index], r, afterOk, pair, if |w| > 0 then Abs(r.ms - w[|w| - 1].ms) else 0)
    ensures AllDescribed(f, w + [r], was[index := b])
  {
    hide Describes, Pair, IsFailure, WithOk, WithNotOk;
    var next := was[index := b];
    forall i | 0 <= i < BUCKETS ensures Describes(f, w + [r], i, next[i]) {
      DescribesStep(f, w, r, i, was[i]);
    }
  }

  // The figures agree with the buckets and with the samples.
  lemma FiguresConserve(f: Frame, results: seq<Sample>, until: int)
    ensures var w := InWindow(results, f.since, until);
      var q := Summary(f, w, until);
      && q.samples == q.successful + q.failures + q.excluded == |w|
      && SumOver(f, w, BUCKETS, Oks) == q.successful && SumOver(f, w, BUCKETS, Failures) == q.failures
      && SumOver(f, w, BUCKETS, Excluded) == q.excluded
      && (q.variation.Some? <==> SumOver(f, w, BUCKETS, Pairs) > 0)
      && (q.variation.Some? ==>
            q.variation.value == SumOver(f, w, BUCKETS, Variation) as real / SumOver(f, w, BUCKETS, Pairs) as real)
  {
    var w := InWindow(results, f.since, until);
    WindowAfter(results, f.since, until);
    hide InWindow, Tally, SumOver;
    KindsPartition(f, w);
    BucketsConserve(f, w, Oks);
    BucketsConserve(f, w, Failures);
    BucketsConserve(f, w, Excluded);
    BucketsConserve(f, w, Pairs);
    BucketsConserve(f, w, Variation);
  }

  lemma {:induction false} WindowAfter(results: seq<Sample>, since: int, until: int)
    ensures AllAfter(InWindow(results, since, until), since)
  {
    if results != [] {
      WindowAfter(results[..|results| - 1], since, until);
    }
  }

  lemma {:induction false} WindowSorted(results: seq<Sample>, since: int, until: int)
    requires SortedByTime(results)
    ensures SortedByTime(InWindow(results, since, until))
    ensures forall s :: s in InWindow(results, since, until) ==> s in results
  {
    if results != [] {
      var init, r := results[..|results| - 1], results[|results| - 1];
      WindowSorted(init, since, until);
      var w := InWindow(init, since, until);
      forall k | 0 <= k < |w| ensures w[k].at <= r.at {
        assert w[k] in w;
        assert w[k] in init;
      }
    }
  }
}
