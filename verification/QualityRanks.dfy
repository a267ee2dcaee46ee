// Median and 95th percentile of the ok latencies.
module QualityRanks {
  import opened Clock

  predicate Ascending(s: seq<int>) {
    forall i, j :: 0 <= i < j < |s| ==> s[i] <= s[j]
  }

  function SortInsert(s: seq<int>, x: int): seq<int> {
    if s == [] || s[|s| - 1] <= x then s + [x] else SortInsert(s[..|s| - 1], x) + [s[|s| - 1]]
  }

  function Sort(s: seq<int>): seq<int> {
    if s == [] then [] else SortInsert(Sort(s[..|s| - 1]), s[|s| - 1])
  }

  lemma {:induction false} SortInsertKeeps(s: seq<int>, x: int)
    ensures multiset(SortInsert(s, x)) == multiset(s) + multiset{x}
  {
    if s == [] || s[|s| - 1] <= x {
    } else {
      SortInsertKeeps(s[..|s| - 1], x);
      assert s == s[..|s| - 1] + [s[|s| - 1]];
    }
  }

  lemma {:induction false} SortInsertAscends(s: seq<int>, x: int)
    requires Ascending(s)
    ensures Ascending(SortInsert(s, x))
  {
    if s == [] || s[|s| - 1] <= x {
    } else {
      var init, last := s[..|s| - 1], s[|s| - 1];
      SortInsertAscends(init, x);
      SortInsertKeeps(init, x);
      var ins := SortInsert(init, x);
      forall i | 0 <= i < |ins| ensures ins[i] <= last {
        assert ins[i] in multiset(ins);
      }
    }
  }

  // Sorting keeps the samples and puts them in order.
  lemma {:induction false} Sorts(s: seq<int>)
    ensures Ascending(Sort(s)) && multiset(Sort(s)) == multiset(s) && |Sort(s)| == |s|
  {
    if s != [] {
      var init, x := s[..|s| - 1], s[|s| - 1];
      Sorts(init);
      SortInsertAscends(Sort(init), x);
      SortInsertKeeps(Sort(init), x);
      assert s == init + [x];
      assert |multiset(Sort(s))| == |Sort(s)|;
    }
  }

  function Ceil(r: real): int { -((-r).Floor) }

  function P95Index(n: int): int {
    Ceil(n as real * 0.95) - 1
  }

  // The same rank in whole numbers.
  lemma P95IndexIsRank(n: int)
    requires n >= 1
    ensures P95Index(n) == (95 * n + 99) / 100 - 1
    ensures 0 <= P95Index(n) < n && n / 2 <= P95Index(n)
  {
    var x, k := n as real * 0.95, (95 * n + 99) / 100;
    assert x * 100.0 == (95 * n) as real;
    assert 100 * (k - 1) < 95 * n <= 100 * k;
    assert (k - 1) as real < x <= k as real;
    CeilIs(x, k);
  }

  lemma CeilIs(x: real, k: int)
    requires (k - 1) as real < x <= k as real
    ensures Ceil(x) == k
  {
    assert (-k) as real <= -x < (-k + 1) as real;
  }

  function MedianOf(sorted: seq<int>): real
    requires sorted != []
  {
    (sorted[(|sorted| - 1) / 2] as real + sorted[|sorted| / 2] as real) / 2.0
  }

  function P95Of(sorted: seq<int>): int
    requires sorted != []
  {
    P95IndexIsRank(|sorted|);
    sorted[P95Index(|sorted|)]
  }

  // How many samples are at most v, and how many are below it.
  function AtMost(s: seq<int>, v: real): nat {
    if s == [] then 0 else AtMost(s[..|s| - 1], v) + (if s[|s| - 1] as real <= v then 1 else 0)
  }

  function Below(s: seq<int>, v: real): nat {
    if s == [] then 0 else Below(s[..|s| - 1], v) + (if (s[|s| - 1] as real) < v then 1 else 0)
  }

  lemma {:induction false} AtMostFrom(s: seq<int>, v: real, k: nat)
    requires k <= |s| && forall i :: 0 <= i < k ==> s[i] as real <= v
    ensures AtMost(s, v) >= k
  {
    if k < |s| {
      AtMostFrom(s[..|s| - 1], v, k);
    } else if k > 0 {
      AtMostFrom(s[..|s| - 1], v, k - 1);
    }
  }

  lemma {:induction false} BelowUpTo(s: seq<int>, v: real, k: nat)
    requires k <= |s| && forall i :: k <= i < |s| ==> v <= s[i] as real
    ensures Below(s, v) <= k
  {
    if s != [] {
      var init := s[..|s| - 1];
      if k < |s| {
        BelowUpTo(init, v, k);
      } else {
        BelowUpTo(init, v, k - 1);
      }
    }
  }

  lemma {:induction false} CountsSplit(s: seq<int>, t: seq<int>, v: real)
    ensures AtMost(s + t, v) == AtMost(s, v) + AtMost(t, v)
    ensures Below(s + t, v) == Below(s, v) + Below(t, v)
  {
    if t == [] {
      assert s + t == s;
    } else {
      CountsSplit(s, t[..|t| - 1], v);
      assert (s + t)[..|s + t| - 1] == s + t[..|t| - 1];
    }
  }

  lemma CountsAppend(s: seq<int>, x: int, v: real)
    ensures AtMost(s + [x], v) == AtMost(s, v) + (if x as real <= v then 1 else 0)
    ensures Below(s + [x], v) == Below(s, v) + (if (x as real) < v then 1 else 0)
  {
    assert (s + [x])[..|s|] == s;
  }

  lemma CountsMoveOut(s: seq<int>, k: nat, v: real)
    requires k < |s|
    ensures AtMost(s, v) == AtMost(s[..k] + s[k + 1..] + [s[k]], v)
    ensures Below(s, v) == Below(s[..k] + s[k + 1..] + [s[k]], v)
  {
    assert s == s[..k] + [s[k]] + s[k + 1..];
    CountsSplit(s[..k] + [s[k]], s[k + 1..], v);
    CountsSplit(s[..k], [s[k]], v);
    CountsSplit(s[..k], s[k + 1..], v);
    CountsSplit(s[..k] + s[k + 1..], [s[k]], v);
    hide AtMost, Below;
  }

  // Counting does not depend on the order.
  lemma {:induction false} CountsPermute(s: seq<int>, t: seq<int>, v: real)
    requires multiset(s) == multiset(t)
    ensures AtMost(s, v) == AtMost(t, v) && Below(s, v) == Below(t, v)
    decreases |s|
  {
    hide AtMost, Below;
    if s == [] {
      assert |multiset(t)| == 0;
    } else {
      var init, x := s[..|s| - 1], s[|s| - 1];
      assert s == init + [x];
      assert x in multiset(t);
      var k :| 0 <= k < |t| && t[k] == x;
      var rest := t[..k] + t[k + 1..];
      assert t == t[..k] + [x] + t[k + 1..];
      assert multiset(init) == multiset(s) - multiset{x} == multiset(rest);
      CountsPermute(init, rest, v);
      CountsMoveOut(t, k, v);
      CountsAppend(init, x, v);
      CountsAppend(rest, x, v);
    }
  }

  // In a sorted list the value at an index has at least the samples up to it at most it, and at most
  // the ones before it below it.
  lemma RankAt(s: seq<int>, k: nat)
    requires Ascending(s) && k < |s|
    ensures AtMost(s, s[k] as real) >= k + 1 && Below(s, s[k] as real) <= k
  {
    AtMostFrom(s, s[k] as real, k + 1);
    BelowUpTo(s, s[k] as real, k);
  }

  lemma SortedFrom(latencies: seq<int>) returns (s: seq<int>)
    ensures s == Sort(latencies) && Ascending(s) && |s| == |latencies|
    ensures forall x :: x in s <==> x in latencies
    ensures forall v :: AtMost(s, v) == AtMost(latencies, v) && Below(s, v) == Below(latencies, v)
  {
    s := Sort(latencies);
    Sorts(latencies);
    forall x ensures x in s <==> x in latencies {
      assert x in s <==> x in multiset(s);
      assert x in latencies <==> x in multiset(latencies);
    }
    forall v ensures AtMost(s, v) == AtMost(latencies, v) && Below(s, v) == Below(latencies, v) {
      CountsPermute(s, latencies, v);
    }
  }

  // At least 95% of the samples do not exceed the P95, fewer than 95% are strictly below it.
  lemma P95IsRank(latencies: seq<int>)
    requires latencies != []
    ensures |Sort(latencies)| == |latencies|
    ensures var p := P95Of(Sort(latencies));
      && p in latencies
      && 100 * AtMost(latencies, p as real) >= 95 * |latencies|
      && 100 * Below(latencies, p as real) < 95 * |latencies|
  {
    var s := SortedFrom(latencies);
    P95IndexIsRank(|s|);
    var k := P95Index(|s|);
    RankAt(s, k);
    hide AtMost, Below, Sort, P95Index;
    assert s[k] in s;
  }

  // At least half the samples are at most the median, at least half are not below it, and it never
  // exceeds the P95.
  lemma MedianIsRank(latencies: seq<int>)
    requires latencies != []
    ensures |Sort(latencies)| == |latencies|
    ensures var m := MedianOf(Sort(latencies));
      && 2 * AtMost(latencies, m) >= |latencies|
      && 2 * (|latencies| - Below(latencies, m)) >= |latencies|
      && m <= P95Of(Sort(latencies)) as real
  {
    var s := SortedFrom(latencies);
    P95IndexIsRank(|s|);
    MedianBetween(s);
    hide AtMost, Below, Sort, P95Index;
  }

  lemma MedianBetween(s: seq<int>)
    requires s != [] && Ascending(s)
    ensures var m, n := MedianOf(s), |s|;
      AtMost(s, m) >= (n - 1) / 2 + 1 && Below(s, m) <= n / 2 && m <= s[n / 2] as real
  {
    var m, lo, hi := MedianOf(s), (|s| - 1) / 2, |s| / 2;
    assert s[lo] as real <= m <= s[hi] as real;
    AtMostFrom(s, m, lo + 1);
    BelowUpTo(s, m, hi);
  }
}
