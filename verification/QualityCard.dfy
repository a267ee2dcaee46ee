// The quality card of a hostname: the figures, the buckets and the chart drawn from them, in terms of
// the probe results and the probe interval.
module QualityCard {
  import opened Clock
  import opened QualitySpec
  import opened QualityRanks
  import opened Quality
  import opened QualityFacts
  import opened QualityChart

  // The whole of it: classify the results, then draw the buckets.
  method BuildQuality(since: int, until: int, results: seq<Sample>, interval: int)
    returns (q: Quality, buckets: seq<Bucket>, chart: Chart, ghost w: seq<Sample>)
    ensures w == InWindow(results, since, until)
    ensures Figures(q, w, since, until, interval)
    ensures |buckets| == 288 && forall i :: 0 <= i < 288 ==> BucketFacts(buckets[i], w, since, interval, i)
    ensures ScaleFacts(chart.maxMS, buckets)
    ensures PointsFacts(chart.points, buckets, since, chart.maxMS)
    ensures exists gap ::
      && chart.latencyPath == LatencyPath(buckets, 288, gap, chart.maxMS)
      && chart.variationPath == VariationPath(buckets, 288, gap, chart.maxMS)
      && (SortedByTime(results) ==> JoinsFacts(buckets, gap, w, since, interval))
      && PathsFacts(chart, buckets, gap)
  {
    hide InWindow, Summary, AllDescribed, Figures, BucketFacts, FrameOf, ScaleFacts, PointsFacts, LatencyPath;
    hide VariationPath, Peak, Scale, Points, JoinsFacts, PathsFacts, SortedByTime;
    w := InWindow(results, since, until);
    WindowIs(results, since, until);
    q, buckets := Classify(since, until, results, interval);
    SummaryFacts(since, until, interval, w);
    AllFacts(since, interval, w, buckets);
    var maxGap := interval + Halve(interval);
    chart := QualityGeometry(buckets, maxGap, since);
    ScaleMeans(buckets);
    PointsMean(buckets, 288, since, chart.maxMS);
    PathsMean(chart, buckets, maxGap, since);
    if SortedByTime(results) {
      JoinsMean(since, until, interval, results, buckets);
    }
    GapIs(since, interval);
  }

  lemma GapIs(since: int, interval: int)
    ensures FrameOf(since, interval).since == since
    ensures FrameOf(since, interval).maxGap == interval + Halve(interval)
  {
  }

  lemma AllFacts(since: int, interval: int, w: seq<Sample>, buckets: seq<Bucket>)
    requires AllAfter(w, since) && AllDescribed(FrameOf(since, interval), w, buckets)
    ensures |buckets| == 288 && forall i :: 0 <= i < 288 ==> BucketFacts(buckets[i], w, since, interval, i)
  {
    hide Describes, BucketFacts, FrameOf;
    forall i | 0 <= i < 288 ensures BucketFacts(buckets[i], w, since, interval, i) {
      DescribedFacts(since, interval, w, i, buckets[i]);
    }
  }

  // A non-empty bucket is joined to the one before exactly when the samples of both are seamless, and
  // then it has a variation.
  ghost predicate JoinsFacts(buckets: seq<Bucket>, gap: int, w: seq<Sample>, since: int, interval: int) {
    forall i :: 0 < i < |buckets| && NonEmpty(buckets[i]) ==>
      && (JoinsPrevious(buckets, i, gap) <==> Seamless(w, since, interval, i))
      && (JoinsPrevious(buckets, i, gap) ==> buckets[i].pairs > 0)
  }

  lemma JoinsMean(since: int, until: int, interval: int, results: seq<Sample>, buckets: seq<Bucket>)
    requires SortedByTime(results)
    requires AllDescribed(FrameOf(since, interval), InWindow(results, since, until), buckets)
    ensures JoinsFacts(buckets, interval + Halve(interval), InWindow(results, since, until), since, interval)
  {
    var f, w := FrameOf(since, interval), InWindow(results, since, until);
    GapIs(since, interval);
    WindowIs(results, since, until);
    assert |buckets| == 288;
    hide InWindow, AllDescribed, FrameOf, Seamless, JoinsPrevious, Contiguous, NonEmpty;
    forall i | 0 < i < |buckets| && NonEmpty(buckets[i])
      ensures JoinsPrevious(buckets, i, f.maxGap) <==> Seamless(w, since, interval, i)
      ensures JoinsPrevious(buckets, i, f.maxGap) ==> buckets[i].pairs > 0
    {
      ChartJoinsContiguous(f, results, until, buckets, i);
      ContiguousMeans(since, interval, w, i);
    }
  }

  // ---- the scale ----

  // The scale is the least multiple of ten that reaches one, every highest latency and every mean variation.
  ghost predicate ScaleFacts(maxMS: real, buckets: seq<Bucket>) {
    && maxMS == 10.0 * (maxMS / 10.0).Floor as real
    && maxMS >= 1.0 && Reaches(maxMS, buckets)
    && (maxMS - 10.0 < 1.0 || !Reaches(maxMS - 10.0, buckets))
  }

  ghost predicate Reaches(v: real, buckets: seq<Bucket>) {
    forall i :: 0 <= i < |buckets| ==>
      buckets[i].high as real <= v && (buckets[i].pairs > 0 ==> MeanVariation(buckets[i]) <= v)
  }

  lemma {:induction false} PeakIsLeast(buckets: seq<Bucket>, v: real)
    ensures Peak(buckets) <= v <==> 1.0 <= v && Reaches(v, buckets)
  {
    if buckets != [] {
      var init, b := buckets[..|buckets| - 1], buckets[|buckets| - 1];
      PeakIsLeast(init, v);
      assert buckets == init + [b];
      hide MeanVariation;
      assert Reaches(v, buckets) <==>
        Reaches(v, init) && b.high as real <= v && (b.pairs > 0 ==> MeanVariation(b) <= v);
    }
  }

  lemma ScaleMeans(buckets: seq<Bucket>)
    ensures ScaleFacts(Scale(Peak(buckets)), buckets)
  {
    hide Peak, Scale, Reaches;
    var maxMS := Scale(Peak(buckets));
    ScaleBounds(Peak(buckets));
    PeakIsLeast(buckets, maxMS);
    PeakIsLeast(buckets, maxMS - 10.0);
  }

  lemma ScaleBounds(peak: real)
    ensures peak <= Scale(peak) < peak + 10.0
    ensures Scale(peak) == 10.0 * (Scale(peak) / 10.0).Floor as real
  {
    var k := Ceil(peak / 10.0);
    CeilBounds(peak / 10.0);
    hide Ceil;
    assert Scale(peak) / 10.0 == k as real;
  }

  lemma CeilBounds(r: real)
    ensures r <= Ceil(r) as real < r + 1.0
  {
  }

  // ---- the points ----

  // A level: zero lies at 190, the scale at 20, and heights in between are proportional.
  predicate At(y: real, ms: real, maxMS: real) {
    (190.0 - y) * maxMS == 170.0 * ms
  }

  // A point shows its bucket: in the middle of its column, with its own counts and levels.
  ghost predicate PointFacts(p: Point, b: Bucket, i: int, since: int, maxMS: real) {
    && p.bucket == i && p.x == 50.0 + 3.125 * i as real + 1.5625
    && p.since == since + i * 300_000_000_000 && p.until == since + (i + 1) * 300_000_000_000
    && p.failures == b.failures && p.excluded == b.excluded
    && (p.latency.Some? <==> b.count > 0) && (p.variationY.Some? <==> b.pairs > 0)
    && (b.count > 0 ==>
          && At(p.latency.value.lowY, b.low as real, maxMS) && At(p.latency.value.highY, b.high as real, maxMS)
          && exists mean: real :: mean * b.count as real == b.sum as real && At(p.latency.value.y, mean, maxMS))
    && (b.pairs > 0 ==>
          exists mean: real :: mean * b.pairs as real == b.variation as real && At(p.variationY.value, mean, maxMS))
  }

  // One point per non-empty bucket, from left to right.
  ghost predicate PointsFacts(points: seq<Point>, buckets: seq<Bucket>, since: int, maxMS: real) {
    && (forall j, k :: 0 <= j < k < |points| ==> points[j].bucket < points[k].bucket)
    && (forall j :: 0 <= j < |points| ==>
          0 <= points[j].bucket < |buckets| && Shows(points[j], buckets[points[j].bucket], since, maxMS))
    && (forall i :: 0 <= i < |buckets| && buckets[i].count + buckets[i].failures + buckets[i].excluded != 0 ==>
          exists j :: 0 <= j < |points| && points[j].bucket == i)
  }

  ghost predicate Shows(p: Point, b: Bucket, since: int, maxMS: real) {
    b.count + b.failures + b.excluded != 0 && PointFacts(p, b, p.bucket, since, maxMS)
  }

  lemma LevelMeans(ms: real, maxMS: real)
    requires maxMS > 0.0
    ensures At(Y(ms, maxMS), ms, maxMS)
  {
  }

  lemma ColumnMeans(i: int)
    ensures X(i) == 50.0 + 3.125 * i as real + 1.5625
  {
  }

  lemma MeansMean(b: Bucket)
    ensures b.count > 0 ==> Mean(b) * b.count as real == b.sum as real
    ensures b.pairs > 0 ==> MeanVariation(b) * b.pairs as real == b.variation as real
  {
  }

  lemma PointMeans(buckets: seq<Bucket>, i: int, since: int, maxMS: real)
    requires 0 <= i < |buckets| && maxMS > 0.0
    ensures PointFacts(PointOf(buckets, i, since, maxMS), buckets[i], i, since, maxMS)
  {
    var b := buckets[i];
    ColumnMeans(i);
    MeansMean(b);
    if b.count > 0 {
      LevelMeans(Mean(b), maxMS);
      LevelMeans(b.low as real, maxMS);
      LevelMeans(b.high as real, maxMS);
    }
    if b.pairs > 0 {
      LevelMeans(MeanVariation(b), maxMS);
    }
    hide X, Y, Mean, MeanVariation, At;
  }

  lemma {:induction false} PointsMean(buckets: seq<Bucket>, n: nat, since: int, maxMS: real)
    requires n <= |buckets| && maxMS > 0.0
    ensures PointsFacts(Points(buckets, n, since, maxMS), buckets[..n], since, maxMS)
    ensures n == |buckets| ==> buckets[..n] == buckets
  {
    if n == 0 {
      assert buckets[..0] == [];
    } else {
      var points, i := Points(buckets, n - 1, since, maxMS), n - 1;
      PointsMean(buckets, i, since, maxMS);
      PointMeans(buckets, i, since, maxMS);
      var p := PointOf(buckets, i, since, maxMS);
      var before, now := buckets[..i], buckets[..n];
      assert now == before + [buckets[i]];
      assert Points(buckets, n, since, maxMS) == if NonEmpty(buckets[i]) then points + [p] else points;
      hide Points, PointOf, PointFacts, PointsFacts;
      if NonEmpty(buckets[i]) {
        PointsStep(points, before, p, buckets[i], since, maxMS);
      } else {
        PointsSkip(points, before, buckets[i], since, maxMS);
      }
    }
  }

  lemma PointsSkip(points: seq<Point>, before: seq<Bucket>, b: Bucket, since: int, maxMS: real)
    requires PointsFacts(points, before, since, maxMS) && !NonEmpty(b)
    ensures PointsFacts(points, before + [b], since, maxMS)
  {
    hide Shows;
  }

  lemma PointsStep(points: seq<Point>, before: seq<Bucket>, p: Point, b: Bucket, since: int, maxMS: real)
    requires PointsFacts(points, before, since, maxMS) && p.bucket == |before| && Shows(p, b, since, maxMS)
    ensures PointsFacts(points + [p], before + [b], since, maxMS)
  {
    hide Shows;
    var all, buckets := points + [p], before + [b];
    forall i | 0 <= i < |buckets| && buckets[i].count + buckets[i].failures + buckets[i].excluded != 0
      ensures exists j :: 0 <= j < |all| && all[j].bucket == i
    {
      if i < |before| {
        assert before[i] == buckets[i];
        var j :| 0 <= j < |points| && points[j].bucket == i;
        assert all[j].bucket == i;
      } else {
        assert all[|points|].bucket == i;
      }
    }
  }

  // ---- the paths ----

  // The latency path runs through the points that have a latency, and the variation path through those
  // that have a variation: one piece each, drawn from the point before exactly when both are joined.
  ghost predicate PathsFacts(chart: Chart, buckets: seq<Bucket>, gap: int) {
    && Through(chart.latencyPath, chart.points, buckets, gap, false)
    && Through(chart.variationPath, chart.points, buckets, gap, true)
  }

  ghost predicate Through(path: seq<Segment>, points: seq<Point>, buckets: seq<Bucket>, gap: int, variation: bool) {
    && (forall j :: 0 <= j < |path| ==> EndsAtPoint(path[j], points, buckets, gap, variation))
    && (forall k :: 0 <= k < |points| && Has(points[k], variation) ==> HasPiece(points[k], path, buckets, gap, variation))
  }

  ghost predicate EndsAtPoint(s: Segment, points: seq<Point>, buckets: seq<Bucket>, gap: int, variation: bool) {
    exists k :: 0 <= k < |points| && Piece(s, points[k], buckets, gap, variation)
  }

  ghost predicate HasPiece(p: Point, path: seq<Segment>, buckets: seq<Bucket>, gap: int, variation: bool) {
    exists j :: 0 <= j < |path| && Piece(path[j], p, buckets, gap, variation)
  }

  predicate Has(p: Point, variation: bool) {
    if variation then p.variationY.Some? else p.latency.Some?
  }

  predicate Piece(s: Segment, p: Point, buckets: seq<Bucket>, gap: int, variation: bool) {
    && Has(p, variation) && 0 <= p.bucket < |buckets|
    && s.x == p.x && s.y == (if variation then p.variationY.value else p.latency.value.y)
    && (s.Curve? <==> JoinsPrevious(buckets, p.bucket, gap) && (variation ==> buckets[p.bucket - 1].pairs > 0))
  }

  // The piece that a bucket adds to a path.
  function PieceOf(buckets: seq<Bucket>, i: nat, gap: int, maxMS: real, variation: bool): seq<Segment>
    requires i < |buckets| && maxMS > 0.0
  {
    var b := buckets[i];
    if !variation then
      if !NonEmpty(b) || b.count <= 0 then []
      else if JoinsPrevious(buckets, i, gap) then [Join(LatencyAt(buckets, i - 1, maxMS), LatencyAt(buckets, i, maxMS))]
      else [Move(X(i), Y(Mean(b), maxMS))]
    else
      if !NonEmpty(b) || b.pairs <= 0 then []
      else if JoinsPrevious(buckets, i, gap) && buckets[i - 1].pairs > 0 then
        [Join(VariationAt(buckets, i - 1, maxMS), VariationAt(buckets, i, maxMS))]
      else [Move(X(i), Y(MeanVariation(b), maxMS))]
  }

  lemma PieceMeans(buckets: seq<Bucket>, i: nat, gap: int, since: int, maxMS: real, variation: bool)
    requires i < |buckets| && maxMS > 0.0
    ensures var p, piece := PointOf(buckets, i, since, maxMS), PieceOf(buckets, i, gap, maxMS, variation);
      && |piece| <= 1
      && (piece != [] <==> NonEmpty(buckets[i]) && Has(p, variation))
      && (piece != [] ==> Piece(piece[0], p, buckets, gap, variation))
  {
    hide X, Y, Mean, MeanVariation, NonEmpty;
  }

  lemma {:induction false} PathThrough(buckets: seq<Bucket>, n: nat, gap: int, since: int, maxMS: real, variation: bool)
    requires n <= |buckets| && maxMS > 0.0
    ensures Through(if variation then VariationPath(buckets, n, gap, maxMS) else LatencyPath(buckets, n, gap, maxMS),
                    Points(buckets, n, since, maxMS), buckets, gap, variation)
  {
    if n > 0 {
      var i := n - 1;
      PathThrough(buckets, i, gap, since, maxMS, variation);
      PieceMeans(buckets, i, gap, since, maxMS, variation);
      var path := if variation then VariationPath(buckets, i, gap, maxMS) else LatencyPath(buckets, i, gap, maxMS);
      var points, p := Points(buckets, i, since, maxMS), PointOf(buckets, i, since, maxMS);
      var piece := PieceOf(buckets, i, gap, maxMS, variation);
      LongerPath(buckets, i, gap, maxMS, variation);
      assert Points(buckets, n, since, maxMS) == points + (if NonEmpty(buckets[i]) then [p] else []);
      hide Points, PointOf, LatencyPath, VariationPath, PieceOf, Piece, Has, NonEmpty;
      ThroughStep(path, points, buckets, gap, variation, piece, p, NonEmpty(buckets[i]));
    }
  }

  lemma LongerPath(buckets: seq<Bucket>, i: nat, gap: int, maxMS: real, variation: bool)
    requires i < |buckets| && maxMS > 0.0
    ensures var piece := PieceOf(buckets, i, gap, maxMS, variation);
      if variation then VariationPath(buckets, i + 1, gap, maxMS) == VariationPath(buckets, i, gap, maxMS) + piece
      else LatencyPath(buckets, i + 1, gap, maxMS) == LatencyPath(buckets, i, gap, maxMS) + piece
  {
    hide X, Y, Mean, MeanVariation, Join, NonEmpty, JoinsPrevious;
  }

  lemma ThroughStep(path: seq<Segment>, points: seq<Point>, buckets: seq<Bucket>, gap: int, variation: bool,
                    piece: seq<Segment>, p: Point, shown: bool)
    requires Through(path, points, buckets, gap, variation)
    requires |piece| <= 1 && (piece != [] <==> shown && Has(p, variation))
    requires piece != [] ==> Piece(piece[0], p, buckets, gap, variation)
    ensures Through(path + piece, points + (if shown then [p] else []), buckets, gap, variation)
  {
    hide Piece, Has;
    var longer, more := path + piece, points + (if shown then [p] else []);
    forall j | 0 <= j < |longer| ensures EndsAtPoint(longer[j], more, buckets, gap, variation) {
      if j < |path| {
        assert longer[j] == path[j] && EndsAtPoint(path[j], points, buckets, gap, variation);
        var k :| 0 <= k < |points| && Piece(path[j], points[k], buckets, gap, variation);
        assert more[k] == points[k];
      } else {
        assert more[|points|] == p;
      }
    }
    forall k | 0 <= k < |more| && Has(more[k], variation) ensures HasPiece(more[k], longer, buckets, gap, variation) {
      if k < |points| {
        assert more[k] == points[k] && HasPiece(points[k], path, buckets, gap, variation);
        var j :| 0 <= j < |path| && Piece(path[j], points[k], buckets, gap, variation);
        assert longer[j] == path[j];
      } else {
        assert longer[|path|] == piece[0];
      }
    }
  }

  lemma PathsMean(chart: Chart, buckets: seq<Bucket>, gap: int, since: int)
    requires chart.maxMS > 0.0 && chart.points == Points(buckets, |buckets|, since, chart.maxMS)
    requires chart.latencyPath == LatencyPath(buckets, |buckets|, gap, chart.maxMS)
    requires chart.variationPath == VariationPath(buckets, |buckets|, gap, chart.maxMS)
    ensures PathsFacts(chart, buckets, gap)
  {
    hide Through, Points, LatencyPath, VariationPath;
    PathThrough(buckets, |buckets|, gap, since, chart.maxMS, false);
    PathThrough(buckets, |buckets|, gap, since, chart.maxMS, true);
  }
}
