// The chart geometry: a second pass that draws one point per bucket and joins neighbours.
module QualityChart {
  import opened Clock
  import opened QualitySpec
  import opened QualityRanks
  import opened Quality
  import opened Curves

  // A piece of an SVG path; a curve starts where the piece before it ended.
  datatype Segment =
    | Move(x: real, y: real)
    | Curve(c1x: real, c1y: real, c2x: real, c2y: real, x: real, y: real)

  datatype Position = Position(x: real, y: real)

  datatype Point = Point(bucket: int, x: real, since: int, until: int, failures: int, excluded: int,
                         latency: Option<Levels>, variationY: Option<real>)

  datatype Levels = Levels(y: real, lowY: real, highY: real)

  datatype Chart = Chart(maxMS: real, points: seq<Point>, latencyPath: seq<Segment>, variationPath: seq<Segment>)

  predicate NonEmpty(b: Bucket) { b.count + b.failures + b.excluded != 0 }

  function X(i: int): real { 50.0 + (i as real + 0.5) * 900.0 / 288.0 }

  function Y(ms: real, maxMS: real): real
    requires maxMS > 0.0
  {
    190.0 - 170.0 * ms / maxMS
  }

  function Mean(b: Bucket): real
    requires b.count > 0
  {
    b.sum as real / b.count as real
  }

  function MeanVariation(b: Bucket): real
    requires b.pairs > 0
  {
    b.variation as real / b.pairs as real
  }

  function RealMax(a: real, b: real): real { if a < b then b else a }

  // The largest value drawn, at least one.
  function Peak(buckets: seq<Bucket>): (m: real)
    ensures m >= 1.0
  {
    if buckets == [] then 1.0
    else
      var b := buckets[|buckets| - 1];
      var high := RealMax(Peak(buckets[..|buckets| - 1]), b.high as real);
      if b.pairs > 0 then RealMax(high, MeanVariation(b)) else high
  }

  // The scale: the peak rounded up to a multiple of ten.
  function Scale(peak: real): real { Ceil(peak / 10.0) as real * 10.0 }

  // ---- what the chart should show, stated without running state ----

  // Bucket i is joined to the bucket right before it.
  predicate JoinsPrevious(buckets: seq<Bucket>, i: int, maxGap: int)
    requires 0 <= i < |buckets|
  {
    i > 0 && NonEmpty(buckets[i - 1]) && Connects(buckets[i - 1], buckets[i], maxGap)
  }

  function Join(from: Position, to: Position): Segment {
    var handle := (to.x - from.x) * 0.2;
    Curve(from.x + handle, from.y, to.x - handle, to.y, to.x, to.y)
  }

  function LatencyAt(buckets: seq<Bucket>, i: int, maxMS: real): Position
    requires 0 <= i < |buckets| && buckets[i].count > 0 && maxMS > 0.0
  {
    Position(X(i), Y(Mean(buckets[i]), maxMS))
  }

  function VariationAt(buckets: seq<Bucket>, i: int, maxMS: real): Position
    requires 0 <= i < |buckets| && buckets[i].pairs > 0 && maxMS > 0.0
  {
    Position(X(i), Y(MeanVariation(buckets[i]), maxMS))
  }

  function LatencyPath(buckets: seq<Bucket>, n: nat, maxGap: int, maxMS: real): seq<Segment>
    requires n <= |buckets| && maxMS > 0.0
  {
    if n == 0 then []
    else
      var i := n - 1;
      LatencyPath(buckets, i, maxGap, maxMS) +
      (if !NonEmpty(buckets[i]) || buckets[i].count <= 0 then []
       else if JoinsPrevious(buckets, i, maxGap)
         then [Join(LatencyAt(buckets, i - 1, maxMS), LatencyAt(buckets, i, maxMS))]
       else [Move(X(i), Y(Mean(buckets[i]), maxMS))])
  }

  function VariationPath(buckets: seq<Bucket>, n: nat, maxGap: int, maxMS: real): seq<Segment>
    requires n <= |buckets| && maxMS > 0.0
  {
    if n == 0 then []
    else
      var i := n - 1;
      VariationPath(buckets, i, maxGap, maxMS) +
      (if !NonEmpty(buckets[i]) || buckets[i].pairs <= 0 then []
       else if JoinsPrevious(buckets, i, maxGap) && buckets[i - 1].pairs > 0
         then [Join(VariationAt(buckets, i - 1, maxMS), VariationAt(buckets, i, maxMS))]
       else [Move(X(i), Y(MeanVariation(buckets[i]), maxMS))])
  }

  function PointOf(buckets: seq<Bucket>, i: int, since: int, maxMS: real): Point
    requires 0 <= i < |buckets| && maxMS > 0.0
  {
    var b := buckets[i];
    Point(i, X(i), since + i * 300_000_000_000, since + i * 300_000_000_000 + 300_000_000_000, b.failures, b.excluded,
          if b.count > 0 then Some(Levels(Y(Mean(b), maxMS), Y(b.low as real, maxMS), Y(b.high as real, maxMS))) else None,
          if b.pairs > 0 then Some(Y(MeanVariation(b), maxMS)) else None)
  }

  function Points(buckets: seq<Bucket>, n: nat, since: int, maxMS: real): seq<Point>
    requires n <= |buckets| && maxMS > 0.0
  {
    if n == 0 then []
    else
      Points(buckets, n - 1, since, maxMS)
      + (if NonEmpty(buckets[n - 1]) then [PointOf(buckets, n - 1, since, maxMS)] else [])
  }

  lemma ScaleCovers(peak: real)
    requires peak >= 1.0
    ensures Scale(peak) >= peak && Scale(peak) >= 10.0
  {
    var k := (-(peak / 10.0)).Floor;
    assert k as real <= -(peak / 10.0);
  }

  // ---- the pass that draws it ----

  // What the pass remembers of the last bucket: nothing after an empty one.
  datatype Pen = Pen(previous: Bucket, x: real, y: real, variationY: real)

  ghost predicate Remembers(pen: Pen, buckets: seq<Bucket>, i: nat, maxMS: real)
    requires i <= |buckets| && maxMS > 0.0
  {
    if i > 0 && NonEmpty(buckets[i - 1]) then
      && pen.previous == buckets[i - 1] && pen.x == X(i - 1)
      && (buckets[i - 1].count > 0 ==> pen.y == Y(Mean(buckets[i - 1]), maxMS))
      && (buckets[i - 1].pairs > 0 ==> pen.variationY == Y(MeanVariation(buckets[i - 1]), maxMS))
    else pen.previous == EmptyBucket
  }

  method QualityGeometry(buckets: seq<Bucket>, maxGap: int, since: int) returns (chart: Chart)
    ensures chart.maxMS == Scale(Peak(buckets)) && chart.maxMS >= 10.0
    ensures chart.points == Points(buckets, |buckets|, since, chart.maxMS)
    ensures chart.latencyPath == LatencyPath(buckets, |buckets|, maxGap, chart.maxMS)
    ensures chart.variationPath == VariationPath(buckets, |buckets|, maxGap, chart.maxMS)
  {
    hide Ceil, X, Y, Mean, MeanVariation, Join;
    var peak := 1.0;
    for i := 0 to |buckets|
      invariant peak == Peak(buckets[..i])
    {
      assert buckets[..i + 1][..i] == buckets[..i];
      peak := RealMax(peak, buckets[i].high as real);
      if buckets[i].pairs > 0 {
        peak := RealMax(peak, MeanVariation(buckets[i]));
      }
    }
    assert buckets[..|buckets|] == buckets;
    ScaleCovers(peak);
    var maxMS := Scale(peak);
    hide Peak, Scale;
    var points: seq<Point>, latencyPath: seq<Segment>, variationPath: seq<Segment> := [], [], [];
    var pen := Pen(EmptyBucket, 0.0, 0.0, 0.0);
    for i := 0 to |buckets|
      invariant Remembers(pen, buckets, i, maxMS)
      invariant points == Points(buckets, i, since, maxMS)
      invariant latencyPath == LatencyPath(buckets, i, maxGap, maxMS)
      invariant variationPath == VariationPath(buckets, i, maxGap, maxMS)
    {
      var b := buckets[i];
      if b.count + b.failures + b.excluded == 0 {
        pen := pen.(previous := EmptyBucket);
        continue;
      }
      points := points + [PointOf(buckets, i, since, maxMS)];
      var drawn, drawnVariation;
      drawn, drawnVariation, pen := DrawBucket(buckets, i, maxGap, maxMS, pen);
      latencyPath, variationPath := latencyPath + drawn, variationPath + drawnVariation;
    }
    chart := Chart(maxMS, points, latencyPath, variationPath);
  }

  // One non-empty bucket: its pieces of the two paths, and the pen after it.
  method DrawBucket(buckets: seq<Bucket>, i: nat, maxGap: int, maxMS: real, pen: Pen)
    returns (latency: seq<Segment>, variation: seq<Segment>, next: Pen)
    requires i < |buckets| && maxMS > 0.0 && NonEmpty(buckets[i]) && Remembers(pen, buckets, i, maxMS)
    ensures LatencyPath(buckets, i + 1, maxGap, maxMS) == LatencyPath(buckets, i, maxGap, maxMS) + latency
    ensures VariationPath(buckets, i + 1, maxGap, maxMS) == VariationPath(buckets, i, maxGap, maxMS) + variation
    ensures Remembers(next, buckets, i + 1, maxMS)
  {
    hide X, Y, Mean, MeanVariation;
    var b, x, previous := buckets[i], X(i), pen.previous;
    var connect := previous.count > 0 && !previous.broken && !b.broken && b.first - previous.last <= maxGap;
    latency, variation, next := [], [], pen.(previous := b, x := x);
    if b.count > 0 {
      var y := Y(Mean(b), maxMS);
      latency := [AppendQualityCurve(pen.x, pen.y, x, y, connect)];
      next := next.(y := y);
    }
    if b.pairs > 0 {
      var y := Y(MeanVariation(b), maxMS);
      variation := [AppendQualityCurve(pen.x, pen.variationY, x, y, connect && previous.pairs > 0)];
      next := next.(variationY := y);
    }
  }

  // A piece of a path: a curve from where the pen is when connected, else a fresh start.
  function AppendQualityCurve(fromX: real, fromY: real, x: real, y: real, connect: bool): Segment {
    if !connect then Move(x, y)
    else
      var handle := (x - fromX) * 0.2;
      Curve(fromX + handle, fromY, x - handle, y, x, y)
  }

  // ---- every curve starts at the bucket right before it ----

  // The path ends at the last drawn bucket whenever that is the one right before n.
  lemma LatencyPathEnds(buckets: seq<Bucket>, n: nat, maxGap: int, maxMS: real)
    requires 0 < n <= |buckets| && maxMS > 0.0 && NonEmpty(buckets[n - 1]) && buckets[n - 1].count > 0
    ensures var path := LatencyPath(buckets, n, maxGap, maxMS);
      path != [] && Position(path[|path| - 1].x, path[|path| - 1].y) == LatencyAt(buckets, n - 1, maxMS)
  {
  }

  lemma VariationPathEnds(buckets: seq<Bucket>, n: nat, maxGap: int, maxMS: real)
    requires 0 < n <= |buckets| && maxMS > 0.0 && NonEmpty(buckets[n - 1]) && buckets[n - 1].pairs > 0
    ensures var path := VariationPath(buckets, n, maxGap, maxMS);
      path != [] && Position(path[|path| - 1].x, path[|path| - 1].y) == VariationAt(buckets, n - 1, maxMS)
  {
  }

  // A curve's first handle leaves horizontally from where the piece before it ended.
  ghost predicate CurvesContinue(path: seq<Segment>) {
    forall j :: 0 <= j < |path| && path[j].Curve? ==>
      j > 0 && path[j] == Join(Position(path[j - 1].x, path[j - 1].y), Position(path[j].x, path[j].y))
  }

  lemma {:induction false} LatencyCurvesContinue(buckets: seq<Bucket>, n: nat, maxGap: int, maxMS: real)
    requires n <= |buckets| && maxMS > 0.0
    ensures CurvesContinue(LatencyPath(buckets, n, maxGap, maxMS))
  {
    if n > 0 {
      var i := n - 1;
      LatencyCurvesContinue(buckets, i, maxGap, maxMS);
      if NonEmpty(buckets[i]) && buckets[i].count > 0 && JoinsPrevious(buckets, i, maxGap) {
        LatencyPathEnds(buckets, i, maxGap, maxMS);
      }
    }
  }

  lemma {:induction false} VariationCurvesContinue(buckets: seq<Bucket>, n: nat, maxGap: int, maxMS: real)
    requires n <= |buckets| && maxMS > 0.0
    ensures CurvesContinue(VariationPath(buckets, n, maxGap, maxMS))
  {
    if n > 0 {
      var i := n - 1;
      VariationCurvesContinue(buckets, i, maxGap, maxMS);
      if NonEmpty(buckets[i]) && buckets[i].pairs > 0 && JoinsPrevious(buckets, i, maxGap) && buckets[i - 1].pairs > 0 {
        VariationPathEnds(buckets, i, maxGap, maxMS);
      }
    }
  }

  // ---- which buckets are joined, in terms of the samples ----

  // For results in time order: a join means contiguous samples in two adjacent buckets, and the converse.
  lemma ChartJoinsContiguous(f: Frame, results: seq<Sample>, until: int, buckets: seq<Bucket>, i: int)
    requires SortedByTime(results) && AllDescribed(f, InWindow(results, f.since, until), buckets)
    requires 0 < i < BUCKETS && NonEmpty(buckets[i])
    ensures JoinsPrevious(buckets, i, f.maxGap) <==> Contiguous(f, InWindow(results, f.since, until), i - 1, i)
    ensures JoinsPrevious(buckets, i, f.maxGap) ==> buckets[i].pairs > 0
  {
    var w := InWindow(results, f.since, until);
    WindowSorted(results, f.since, until);
    hide InWindow;
    CountsNonNegative(f, w, i - 1, buckets[i - 1]);
    CountsNonNegative(f, w, i, buckets[i]);
    JoinedIff(f, w, i, buckets[i - 1], buckets[i]);
  }

  lemma {:induction false} KindTalliesNonNegative(f: Frame, w: seq<Sample>, i: int)
    ensures Tally(f, w, Some(i), Failures) >= 0 && Tally(f, w, Some(i), Excluded) >= 0
  {
    if w != [] {
      KindTalliesNonNegative(f, w[..|w| - 1], i);
    }
  }

  lemma CountsNonNegative(f: Frame, w: seq<Sample>, i: int, b: Bucket)
    requires Describes(f, w, i, b)
    ensures b.count >= 0 && b.failures >= 0 && b.excluded >= 0 && b.pairs >= 0 && b.variation >= 0
  {
    KindTalliesNonNegative(f, w, i);
    TallyNonNegative(f, w, i);
  }

  // ---- bounds ----

  predicate NonNegative(w: seq<Sample>) {
    forall k :: 0 <= k < |w| ==> 0 <= w[k].ms
  }

  lemma {:induction false} PeakCovers(buckets: seq<Bucket>, i: int)
    requires 0 <= i < |buckets|
    ensures buckets[i].high as real <= Peak(buckets)
    ensures buckets[i].pairs > 0 ==> MeanVariation(buckets[i]) <= Peak(buckets)
  {
    if i < |buckets| - 1 {
      PeakCovers(buckets[..|buckets| - 1], i);
    }
  }

  // low <= mean <= high <= the scale in every drawn bucket, and nothing drawn is negative.
  lemma LevelsInOrder(f: Frame, w: seq<Sample>, buckets: seq<Bucket>, i: int)
    requires AllDescribed(f, w, buckets) && NonNegative(w) && 0 <= i < BUCKETS
    ensures var b, maxMS := buckets[i], Scale(Peak(buckets));
      && (b.count > 0 ==> 0.0 <= b.low as real <= Mean(b) <= b.high as real <= maxMS)
      && (b.pairs > 0 ==> 0.0 <= MeanVariation(b) <= maxMS)
  {
    assert Describes(f, w, i, buckets[i]);
    hide AllDescribed, Describes, Peak, Scale, Mean, MeanVariation;
    PeakCovers(buckets, i);
    ScaleCovers(Peak(buckets));
    BucketLevels(f, w, i, buckets[i]);
  }

  lemma BucketLevels(f: Frame, w: seq<Sample>, i: int, b: Bucket)
    requires Describes(f, w, i, b) && NonNegative(w)
    ensures b.count > 0 ==> 0.0 <= b.low as real <= Mean(b) <= b.high as real
    ensures b.pairs > 0 ==> 0.0 <= MeanVariation(b)
  {
    CountsNonNegative(f, w, i, b);
    if b.count > 0 {
      LowIsNonNegative(f, w, i, b);
      SumBetween(f, w, i, b.low, b.high);
      hide Bounded, Delimited, BrokenIff, Tally;
      QuotientBetween(b.sum, b.count, b.low, b.high);
    }
    if b.pairs > 0 {
      NonNegativeQuotient(b.variation, b.pairs);
    }
  }

  lemma NonNegativeQuotient(sum: int, n: int)
    requires n > 0 && sum >= 0
    ensures 0.0 <= sum as real / n as real
  {
  }

  lemma LowIsNonNegative(f: Frame, w: seq<Sample>, i: int, b: Bucket)
    requires Bounded(f, w, i, b) && b.count > 0 && NonNegative(w)
    ensures 0 <= b.low
  {
  }

  lemma QuotientBetween(sum: int, n: int, low: int, high: int)
    requires n > 0 && low * n <= sum <= high * n
    ensures low as real <= sum as real / n as real <= high as real
  {
    var q := sum as real / n as real;
    assert q * n as real == sum as real;
    assert (low * n) as real == low as real * n as real && (high * n) as real == high as real * n as real;
    if q < low as real {
      Stretch(q, low as real, n as real);
    }
    if high as real < q {
      Stretch(high as real, q, n as real);
    }
  }

  // A value within the scale is drawn inside the frame.
  lemma YInFrame(ms: real, maxMS: real)
    requires 0.0 <= ms <= maxMS && maxMS > 0.0
    ensures 20.0 <= Y(ms, maxMS) <= 190.0
  {
    var q := 170.0 * ms / maxMS;
    assert q * maxMS == 170.0 * ms;
    if q < 0.0 {
      Stretch(q, 0.0, maxMS);
    }
    if 170.0 < q {
      Stretch(170.0, q, maxMS);
    }
  }

  // Everything a bucket shows lies inside the frame.
  lemma PointInFrame(f: Frame, w: seq<Sample>, buckets: seq<Bucket>, i: int, since: int)
    requires AllDescribed(f, w, buckets) && NonNegative(w) && 0 <= i < BUCKETS
    ensures var maxMS := Scale(Peak(buckets));
      maxMS > 0.0 &&
      var p := PointOf(buckets, i, since, maxMS);
      && 50.0 < p.x < 950.0
      && (p.latency.Some? ==> 20.0 <= p.latency.value.highY <= p.latency.value.y <= p.latency.value.lowY <= 190.0)
      && (p.variationY.Some? ==> 20.0 <= p.variationY.value <= 190.0)
  {
    var b, maxMS := buckets[i], Scale(Peak(buckets));
    LevelsInOrder(f, w, buckets, i);
    ScaleCovers(Peak(buckets));
    hide Peak, Scale, AllDescribed, Mean, MeanVariation;
    if b.count > 0 {
      YInFrame(b.low as real, maxMS);
      YInFrame(b.high as real, maxMS);
      YFalls(b.low as real, Mean(b), maxMS);
      YFalls(Mean(b), b.high as real, maxMS);
    }
    if b.pairs > 0 {
      YInFrame(MeanVariation(b), maxMS);
    }
  }

  lemma YFalls(a: real, b: real, maxMS: real)
    requires a <= b && maxMS > 0.0
    ensures Y(b, maxMS) <= Y(a, maxMS)
  {
    var p, q := 170.0 * a / maxMS, 170.0 * b / maxMS;
    assert p * maxMS == 170.0 * a && q * maxMS == 170.0 * b;
    if q < p {
      Stretch(q, p, maxMS);
    }
  }

  lemma XIncreases(i: int, j: int)
    requires i < j
    ensures X(i) < X(j)
  {
  }

  // The pieces of a path run from left to right.
  ghost predicate LeftToRight(path: seq<Segment>, end: real) {
    && (forall j, k :: 0 <= j < k < |path| ==> path[j].x < path[k].x)
    && (forall j :: 0 <= j < |path| ==> 50.0 < path[j].x < end)
  }

  lemma PathGrows(path: seq<Segment>, i: nat, next: Segment)
    requires LeftToRight(path, X(i)) && next.x == X(i)
    ensures LeftToRight(path + [next], X(i + 1)) && LeftToRight(path, X(i + 1))
  {
    XIncreases(i, i + 1);
  }

  lemma {:induction false} PathsRunRight(buckets: seq<Bucket>, n: nat, maxGap: int, maxMS: real)
    requires n <= |buckets| && maxMS > 0.0
    ensures LeftToRight(LatencyPath(buckets, n, maxGap, maxMS), X(n))
    ensures LeftToRight(VariationPath(buckets, n, maxGap, maxMS), X(n))
  {
    if n > 0 {
      var i := n - 1;
      PathsRunRight(buckets, i, maxGap, maxMS);
      PathGrows(LatencyPath(buckets, i, maxGap, maxMS), i, Move(X(i), 0.0));
      PathGrows(VariationPath(buckets, i, maxGap, maxMS), i, Move(X(i), 0.0));
      hide X, Y, Mean, MeanVariation;
    }
  }

  predicate InFrame(x: real, y: real) {
    50.0 < x < 950.0 && 20.0 <= y <= 190.0
  }

  ghost predicate PathInFrame(path: seq<Segment>) {
    forall j :: 0 <= j < |path| ==> InFrame(path[j].x, path[j].y)
  }

  // Where bucket i is drawn on either path.
  lemma BucketInFrame(f: Frame, w: seq<Sample>, buckets: seq<Bucket>, i: int)
    requires AllDescribed(f, w, buckets) && NonNegative(w) && 0 <= i < BUCKETS
    ensures var maxMS := Scale(Peak(buckets));
      && maxMS > 0.0
      && (buckets[i].count > 0 ==> InFrame(X(i), Y(Mean(buckets[i]), maxMS)))
      && (buckets[i].pairs > 0 ==> InFrame(X(i), Y(MeanVariation(buckets[i]), maxMS)))
  {
    PointInFrame(f, w, buckets, i, 0);
    hide AllDescribed, Peak, Scale, Mean, MeanVariation, Y;
  }

  // The last piece of a path ends at its bucket's place; nothing else is added.
  lemma LastPieces(buckets: seq<Bucket>, i: nat, maxGap: int, maxMS: real)
    requires i < |buckets| && maxMS > 0.0
    ensures var b, path, longer := buckets[i], LatencyPath(buckets, i, maxGap, maxMS), LatencyPath(buckets, i + 1, maxGap, maxMS);
      longer == path || (b.count > 0 && Extends(path, longer, X(i), Y(Mean(b), maxMS)))
    ensures var b, path, longer := buckets[i], VariationPath(buckets, i, maxGap, maxMS), VariationPath(buckets, i + 1, maxGap, maxMS);
      longer == path || (b.pairs > 0 && Extends(path, longer, X(i), Y(MeanVariation(b), maxMS)))
  {
    hide X, Y, Mean, MeanVariation;
  }

  predicate Extends(path: seq<Segment>, longer: seq<Segment>, x: real, y: real) {
    |longer| == |path| + 1 && longer[..|path|] == path && longer[|path|].x == x && longer[|path|].y == y
  }

  lemma ExtendsInFrame(path: seq<Segment>, longer: seq<Segment>, x: real, y: real)
    requires PathInFrame(path) && Extends(path, longer, x, y) && InFrame(x, y)
    ensures PathInFrame(longer)
  {
    forall j | 0 <= j < |longer| ensures InFrame(longer[j].x, longer[j].y) {
      assert j < |path| ==> longer[j] == path[j];
    }
  }

  // Every piece of both paths ends inside the frame.
  lemma {:induction false} PathsInFrame(f: Frame, w: seq<Sample>, buckets: seq<Bucket>, n: nat, maxGap: int)
    requires AllDescribed(f, w, buckets) && NonNegative(w) && n <= BUCKETS
    ensures var maxMS := Scale(Peak(buckets));
      && maxMS > 0.0
      && PathInFrame(LatencyPath(buckets, n, maxGap, maxMS))
      && PathInFrame(VariationPath(buckets, n, maxGap, maxMS))
  {
    ScaleCovers(Peak(buckets));
    if n > 0 {
      var i, b, maxMS := n - 1, buckets[n - 1], Scale(Peak(buckets));
      PathsInFrame(f, w, buckets, i, maxGap);
      BucketInFrame(f, w, buckets, i);
      LastPieces(buckets, i, maxGap, maxMS);
      hide *;
      if LatencyPath(buckets, n, maxGap, maxMS) != LatencyPath(buckets, i, maxGap, maxMS) {
        ExtendsInFrame(LatencyPath(buckets, i, maxGap, maxMS), LatencyPath(buckets, n, maxGap, maxMS), X(i), Y(Mean(b), maxMS));
      }
      if VariationPath(buckets, n, maxGap, maxMS) != VariationPath(buckets, i, maxGap, maxMS) {
        ExtendsInFrame(VariationPath(buckets, i, maxGap, maxMS), VariationPath(buckets, n, maxGap, maxMS),
                       X(i), Y(MeanVariation(b), maxMS));
      }
    }
  }

  // The point of piece j at parameter t lies inside the frame.
  ghost predicate StaysInFrame(path: seq<Segment>, j: nat, t: real)
    requires j < |path|
  {
    path[j].Curve? ==>
      && j > 0
      && InFrame(Bezier(path[j - 1].x, path[j].c1x, path[j].c2x, path[j].x, t),
                 Bezier(path[j - 1].y, path[j].c1y, path[j].c2y, path[j].y, t))
  }

  ghost predicate CurvesInFrame(path: seq<Segment>) {
    forall j, t :: 0 <= j < |path| && 0.0 <= t <= 1.0 ==> StaysInFrame(path, j, t)
  }

  // No point of a drawn curve leaves the frame its endpoints lie in.
  lemma CurveInFrame(path: seq<Segment>, end: real, j: nat, t: real)
    requires CurvesContinue(path) && LeftToRight(path, end) && PathInFrame(path) && j < |path| && 0.0 <= t <= 1.0
    ensures StaysInFrame(path, j, t)
  {
    if path[j].Curve? {
      hide Bezier;
      var pen, c := path[j - 1], path[j];
      CurveYBetween(pen.y, c.y, t);
      BezierEnds(pen.x, c.c1x, c.c2x, c.x);
      if t > 0.0 {
        CurveXIncreases(pen.x, c.x, 0.0, t);
      }
      if t < 1.0 {
        CurveXIncreases(pen.x, c.x, t, 1.0);
      }
    }
  }

  // No point of either drawn path leaves the frame.
  lemma ChartInFrame(f: Frame, w: seq<Sample>, buckets: seq<Bucket>, maxGap: int)
    requires AllDescribed(f, w, buckets) && NonNegative(w)
    ensures var maxMS := Scale(Peak(buckets));
      && maxMS > 0.0
      && CurvesInFrame(LatencyPath(buckets, BUCKETS, maxGap, maxMS))
      && CurvesInFrame(VariationPath(buckets, BUCKETS, maxGap, maxMS))
  {
    var maxMS := Scale(Peak(buckets));
    PathsInFrame(f, w, buckets, BUCKETS, maxGap);
    PathsRunRight(buckets, BUCKETS, maxGap, maxMS);
    LatencyCurvesContinue(buckets, BUCKETS, maxGap, maxMS);
    VariationCurvesContinue(buckets, BUCKETS, maxGap, maxMS);
    hide AllDescribed, Peak, Scale, LatencyPath, VariationPath, X, StaysInFrame, CurvesContinue, LeftToRight, PathInFrame;
    var latency, variation := LatencyPath(buckets, BUCKETS, maxGap, maxMS), VariationPath(buckets, BUCKETS, maxGap, maxMS);
    forall j, t | 0 <= j < |latency| && 0.0 <= t <= 1.0 ensures StaysInFrame(latency, j, t) {
      CurveInFrame(latency, X(BUCKETS), j, t);
    }
    forall j, t | 0 <= j < |variation| && 0.0 <= t <= 1.0 ensures StaysInFrame(variation, j, t) {
      CurveInFrame(variation, X(BUCKETS), j, t);
    }
  }

  // Along every curve that is drawn, x strictly increases and y stays between its endpoints.
  lemma DrawnCurve(path: seq<Segment>, end: real, j: nat, s: real, t: real)
    requires CurvesContinue(path) && LeftToRight(path, end) && j < |path| && path[j].Curve?
    requires 0.0 <= s < t <= 1.0
    ensures j > 0
    ensures var pen, c := path[j - 1], path[j];
      && Bezier(pen.x, c.c1x, c.c2x, c.x, s) < Bezier(pen.x, c.c1x, c.c2x, c.x, t)
      && (pen.y <= c.y ==> pen.y <= Bezier(pen.y, c.c1y, c.c2y, c.y, t) <= c.y)
      && (c.y <= pen.y ==> c.y <= Bezier(pen.y, c.c1y, c.c2y, c.y, t) <= pen.y)
  {
    hide Bezier;
    var pen, c := path[j - 1], path[j];
    CurveXIncreases(pen.x, c.x, s, t);
    CurveYBetween(pen.y, c.y, t);
  }
}
