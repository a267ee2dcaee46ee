// The geometry of one joined piece: a cubic Bezier curve with horizontal handles.
module Curves {

  // The cubic Bezier polynomial with the given control values.
  function Bezier(p0: real, p1: real, p2: real, p3: real, t: real): real {
    var u := 1.0 - t;
    u * u * u * p0 + 3.0 * u * u * t * p1 + 3.0 * u * t * t * p2 + t * t * t * p3
  }

  function Times(a: real, b: real): real { a * b }

  // How far y has moved from its start to its end, and x likewise, at parameter t.
  function SmoothStep(t: real): real { 3.0 * (t * t) - 2.0 * (t * t * t) }

  function Advance(t: real): real { 0.6 * t + 1.2 * (t * t) - 0.8 * (t * t * t) }

  // ---- products ----

  lemma PositiveTimes(a: real, b: real)
    requires 0.0 < a && 0.0 < b
    ensures 0.0 < Times(a, b)
  {
  }

  lemma NonNegativeTimes(a: real, b: real)
    requires 0.0 <= a && 0.0 <= b
    ensures 0.0 <= Times(a, b)
  {
  }

  lemma TimesDifference(a: real, b: real, c: real)
    ensures Times(a, b - c) == Times(a, b) - Times(a, c)
  {
  }

  lemma TimesOne(a: real)
    ensures Times(a, 1.0) == a
  {
  }

  lemma TimesNegated(a: real, b: real)
    ensures Times(-a, b) == -Times(a, b)
  {
  }

  // Scaling by a factor in the unit interval stays between zero and the value.
  lemma TimesScales(d: real, k: real)
    requires 0.0 <= k <= 1.0
    ensures 0.0 <= d ==> 0.0 <= Times(d, k) <= d
    ensures d <= 0.0 ==> d <= Times(d, k) <= 0.0
  {
    hide Times;
    TimesDifference(d, 1.0, k);
    TimesOne(d);
    if 0.0 <= d {
      NonNegativeTimes(d, k);
      NonNegativeTimes(d, 1.0 - k);
    }
    if d <= 0.0 {
      NonNegativeTimes(-d, k);
      NonNegativeTimes(-d, 1.0 - k);
      TimesNegated(d, k);
      TimesNegated(d, 1.0 - k);
    }
  }

  lemma TimesIncreases(d: real, p: real, q: real)
    requires 0.0 < d && p < q
    ensures Times(d, p) < Times(d, q)
  {
    hide Times;
    PositiveTimes(d, q - p);
    TimesDifference(d, q, p);
  }

  lemma Stretch(a: real, b: real, t: real)
    requires a < b && t > 0.0
    ensures a * t < b * t
  {
  }

  // A curve starts and ends where it should.
  lemma BezierEnds(p0: real, p1: real, p2: real, p3: real)
    ensures Bezier(p0, p1, p2, p3, 0.0) == p0 && Bezier(p0, p1, p2, p3, 1.0) == p3
  {
  }

  // ---- y ----

  // With horizontal handles, y is a smooth step between the endpoints.
  lemma BezierY(from: real, to: real, t: real)
    ensures Bezier(from, from, to, to, t) == from + Times(to - from, SmoothStep(t))
  {
    var u := 1.0 - t;
    var a := u * u * u + 3.0 * u * u * t;
    var b := 3.0 * u * t * t + t * t * t;
    assert u * u == 1.0 - 2.0 * t + t * t;
    assert u * u * u == 1.0 - 3.0 * t + 3.0 * (t * t) - t * t * t;
    assert u * u * t == t - 2.0 * (t * t) + t * t * t;
    assert u * t * t == t * t - t * t * t;
    assert b == SmoothStep(t);
    assert a == 1.0 - b;
    assert u * u * u * from + 3.0 * u * u * t * from == a * from;
    assert 3.0 * u * t * t * to + t * t * t * to == b * to;
  }

  lemma SmoothStepFactors(t: real)
    ensures SmoothStep(t) == Times(Times(t, t), 3.0 - 2.0 * t)
    ensures 1.0 - SmoothStep(t) == Times(Times(1.0 - t, 1.0 - t), 1.0 + 2.0 * t)
  {
    var u, s := 1.0 - t, t * t;
    assert s * (3.0 - 2.0 * t) == 3.0 * s - 2.0 * (s * t);
    assert u * u == 1.0 - 2.0 * t + s;
    assert (u * u) * (1.0 + 2.0 * t) == u * u + 2.0 * ((u * u) * t);
    assert (u * u) * t == t - 2.0 * s + s * t;
  }

  lemma SmoothStepInUnit(t: real)
    requires 0.0 <= t <= 1.0
    ensures 0.0 <= SmoothStep(t) <= 1.0
  {
    hide Times, SmoothStep;
    SmoothStepFactors(t);
    NonNegativeTimes(t, t);
    NonNegativeTimes(Times(t, t), 3.0 - 2.0 * t);
    NonNegativeTimes(1.0 - t, 1.0 - t);
    NonNegativeTimes(Times(1.0 - t, 1.0 - t), 1.0 + 2.0 * t);
  }

  // The curve never overshoots the two measured values.
  lemma CurveYBetween(from: real, to: real, t: real)
    requires 0.0 <= t <= 1.0
    ensures from <= to ==> from <= Bezier(from, from, to, to, t) <= to
    ensures to <= from ==> to <= Bezier(from, from, to, to, t) <= from
  {
    hide Bezier, Times, SmoothStep;
    BezierY(from, to, t);
    SmoothStepInUnit(t);
    TimesScales(to - from, SmoothStep(t));
  }

  // ---- x ----

  // With handles of a fifth of the distance, x advances by this share of it.
  lemma BezierX(from: real, d: real, t: real)
    ensures Bezier(from, from + d * 0.2, from + d - d * 0.2, from + d, t) == from + Times(d, Advance(t))
  {
    var u := 1.0 - t;
    var a, b, c, e := u * u * u, 3.0 * u * u * t, 3.0 * u * t * t, t * t * t;
    assert u * u == 1.0 - 2.0 * t + t * t;
    assert a == 1.0 - 3.0 * t + 3.0 * (t * t) - t * t * t;
    assert u * u * t == t - 2.0 * (t * t) + t * t * t;
    assert u * t * t == t * t - t * t * t;
    assert a + b + c + e == 1.0;
    BezierSum(a, b, c, e, from, d);
    assert 0.2 * b + 0.8 * c + e == Advance(t);
  }

  lemma BezierSum(a: real, b: real, c: real, e: real, from: real, d: real)
    requires a + b + c + e == 1.0
    ensures a * from + b * (from + d * 0.2) + c * (from + d - d * 0.2) + e * (from + d)
      == from + d * (0.2 * b + 0.8 * c + e)
  {
    assert b * (from + d * 0.2) == b * from + 0.2 * (d * b);
    assert c * (from + d - d * 0.2) == c * from + 0.8 * (d * c);
    assert e * (from + d) == e * from + d * e;
    assert (a + b + c + e) * from == a * from + b * from + c * from + e * from;
    assert d * (0.2 * b + 0.8 * c + e) == 0.2 * (d * b) + 0.8 * (d * c) + d * e;
  }

  // The mean slope of the advance between s and t.
  function Slope(s: real, t: real): real {
    0.6 + 1.2 * (t + s) - 0.8 * (Times(t, t) + Times(s, t) + Times(s, s))
  }

  lemma AdvanceFactors(s: real, t: real)
    ensures Advance(t) - Advance(s) == Times(t - s, Slope(s, t))
  {
    var g := t * t + s * t + s * s;
    assert (t - s) * (t + s) == t * t - s * s;
    assert t * g == t * t * t + s * (t * t) + (s * s) * t;
    assert s * g == s * (t * t) + (s * s) * t + s * s * s;
    assert (t - s) * g == t * t * t - s * s * s;
    assert (t - s) * (0.6 + 1.2 * (t + s) - 0.8 * g) == 0.6 * (t - s) + 1.2 * ((t - s) * (t + s)) - 0.8 * ((t - s) * g);
  }

  lemma SlopePositive(s: real, t: real)
    requires 0.0 <= s < t <= 1.0
    ensures Slope(s, t) > 0.0
  {
    hide Times;
    TimesScales(t, t);
    TimesScales(s, t);
    TimesScales(s, s);
  }

  lemma AdvanceIncreases(s: real, t: real)
    requires 0.0 <= s < t <= 1.0
    ensures Advance(s) < Advance(t)
  {
    hide Advance, Times, Slope;
    SlopePositive(s, t);
    AdvanceFactors(s, t);
    PositiveTimes(t - s, Slope(s, t));
  }

  // The curve never turns back: x strictly increases along it.
  lemma CurveXIncreases(from: real, to: real, s: real, t: real)
    requires from < to && 0.0 <= s < t <= 1.0
    ensures var handle := (to - from) * 0.2;
      Bezier(from, from + handle, to - handle, to, s) < Bezier(from, from + handle, to - handle, to, t)
  {
    hide Bezier, Times, Advance;
    var d := to - from;
    assert from + d == to;
    BezierX(from, d, s);
    BezierX(from, d, t);
    AdvanceIncreases(s, t);
    TimesIncreases(d, Advance(s), Advance(t));
  }
}
