// The transition log of one tunnel as the queries of uptime.go see it, and what it means:
// the status in effect at every instant, and the time spent healthy.
module StatusLog {
  import opened Clock

  const HEALTHY: string := "healthy"

  // A row of tunnel_status_history, in insertion (id) order inside the table.
  datatype StatusRow = StatusRow(tunnelID: string, fromStatus: string, status: string, changedAt: int)

  // A row as it is read back: changedAt is an instant again.
  datatype StatusChange = StatusChange(tunnelID: string, fromStatus: string, status: string, changedAt: int)

  // The WHERE clause on changed_at.
  datatype Bound = Any | AtOrAfter(second: int) | AtOrBefore(second: int) {
    predicate Admits(changedAt: int) {
      match this
      case Any => true
      case AtOrAfter(s) => s <= changedAt
      case AtOrBefore(s) => changedAt <= s
    }
  }

  function Read(r: StatusRow): StatusChange {
    StatusChange(r.tunnelID, r.fromStatus, r.status, FromUnix(r.changedAt))
  }

  predicate Sorted(log: seq<StatusChange>) {
    forall i, j :: 0 <= i < j < |log| ==> log[i].changedAt <= log[j].changedAt
  }

  predicate Whole(log: seq<StatusChange>) {
    forall i :: 0 <= i < |log| ==> log[i].changedAt % 1_000_000_000 == 0
  }

  // Places c, which carries the highest id, behind every row that is not later.
  function Insert(log: seq<StatusChange>, c: StatusChange): seq<StatusChange> {
    if log == [] || log[|log| - 1].changedAt <= c.changedAt then log + [c]
    else Insert(log[..|log| - 1], c) + [log[|log| - 1]]
  }

  // SELECT ... WHERE tunnel_id = id AND <bound> ORDER BY changed_at, id
  function Select(rows: seq<StatusRow>, id: string, bound: Bound): seq<StatusChange> {
    if rows == [] then []
    else
      var r := rows[|rows| - 1];
      var rest := Select(rows[..|rows| - 1], id, bound);
      if r.tunnelID == id && bound.Admits(r.changedAt) then Insert(rest, Read(r)) else rest
  }

  function Log(rows: seq<StatusRow>, id: string): seq<StatusChange> {
    Select(rows, id, Any)
  }

  // How many rows of a sorted log are at or before t.
  function Count(log: seq<StatusChange>, t: int): (k: nat)
    ensures k <= |log|
  {
    if log == [] then 0
    else if log[|log| - 1].changedAt <= t then |log|
    else Count(log[..|log| - 1], t)
  }

  // The status in effect at t: that of the most recent row at or before it.
  function StatusOf(log: seq<StatusChange>, t: int): Option<string> {
    var k := Count(log, t);
    if k == 0 then None else Some(log[k - 1].status)
  }

  // The number of instants in [a, b) at which the tunnel was healthy.
  function HealthyInstants(log: seq<StatusChange>, a: int, b: int): nat
    decreases b - a
  {
    if b <= a then 0
    else HealthyInstants(log, a, b - 1) + (if StatusOf(log, b - 1) == Some(HEALTHY) then 1 else 0)
  }

  // ---- the log is what ORDER BY promises ----

  lemma {:induction false} InsertKeeps(log: seq<StatusChange>, c: StatusChange)
    ensures multiset(Insert(log, c)) == multiset(log) + multiset{c}
  {
    if log == [] || log[|log| - 1].changedAt <= c.changedAt {
    } else {
      InsertKeeps(log[..|log| - 1], c);
      assert log == log[..|log| - 1] + [log[|log| - 1]];
    }
  }

  lemma InsertMembers(log: seq<StatusChange>, c: StatusChange)
    ensures forall x :: x in Insert(log, c) <==> x in log || x == c
  {
    InsertKeeps(log, c);
    forall x ensures x in Insert(log, c) <==> x in log || x == c {
      assert x in Insert(log, c) <==> x in multiset(Insert(log, c));
    }
  }

  lemma {:induction false} InsertSorts(log: seq<StatusChange>, c: StatusChange)
    requires Sorted(log)
    ensures Sorted(Insert(log, c))
  {
    if log == [] || log[|log| - 1].changedAt <= c.changedAt {
    } else {
      var init, last := log[..|log| - 1], log[|log| - 1];
      var ins := Insert(init, c);
      InsertSorts(init, c);
      InsertMembers(init, c);
      forall i | 0 <= i < |ins| ensures ins[i].changedAt <= last.changedAt {
        assert ins[i] in ins;
      }
      assert Insert(log, c) == ins + [last];
    }
  }

  // The rows a query returns: sorted, and exactly the matching ones.
  lemma {:induction false} SelectSorts(rows: seq<StatusRow>, id: string, bound: Bound)
    ensures Sorted(Select(rows, id, bound))
    ensures Whole(Select(rows, id, bound))
    ensures forall c :: c in Select(rows, id, bound) <==>
      exists r :: r in rows && r.tunnelID == id && bound.Admits(r.changedAt) && Read(r) == c
  {
    if rows != [] {
      var init, r := rows[..|rows| - 1], rows[|rows| - 1];
      SelectSorts(init, id, bound);
      assert rows == init + [r];
      if r.tunnelID == id && bound.Admits(r.changedAt) {
        var rest, all := Select(init, id, bound), Select(rows, id, bound);
        InsertSorts(rest, Read(r));
        InsertMembers(rest, Read(r));
        forall i | 0 <= i < |all| ensures all[i].changedAt % 1_000_000_000 == 0 {
          assert all[i] in all;
        }
      }
    }
  }

  // ---- counting in a sorted log ----

  lemma {:induction false} CountIs(log: seq<StatusChange>, t: int, k: nat)
    requires Sorted(log) && k <= |log|
    requires k == 0 || log[k - 1].changedAt <= t
    requires k == |log| || t < log[k].changedAt
    ensures Count(log, t) == k
  {
    if k < |log| {
      CountIs(log[..|log| - 1], t, k);
    }
  }

  lemma {:induction false} CountSplits(log: seq<StatusChange>, t: int)
    requires Sorted(log)
    ensures forall i :: 0 <= i < |log| ==> (i < Count(log, t) <==> log[i].changedAt <= t)
  {
    if log != [] && t < log[|log| - 1].changedAt {
      CountSplits(log[..|log| - 1], t);
    }
  }

  lemma CountMonotone(log: seq<StatusChange>, s: int, t: int)
    requires Sorted(log) && s <= t
    ensures Count(log, s) <= Count(log, t)
  {
    CountSplits(log, s);
    CountSplits(log, t);
    var k := Count(log, s);
    if k > 0 {
      assert log[k - 1].changedAt <= s;
    }
  }

  // ---- bounded queries are slices of the full log ----

  function Filter(log: seq<StatusChange>, bound: Bound): seq<StatusChange> {
    if log == [] then []
    else
      var c := log[|log| - 1];
      var rest := Filter(log[..|log| - 1], bound);
      if bound.Admits(ToUnix(c.changedAt)) then rest + [c] else rest
  }

  lemma {:induction false} FilterAppend(log: seq<StatusChange>, c: StatusChange, bound: Bound)
    ensures Filter(log + [c], bound) ==
      if bound.Admits(ToUnix(c.changedAt)) then Filter(log, bound) + [c] else Filter(log, bound)
  {
    assert (log + [c])[..|log|] == log;
  }

  lemma {:induction false} FilterAny(log: seq<StatusChange>)
    ensures Filter(log, Any) == log
  {
    if log != [] {
      FilterAny(log[..|log| - 1]);
    }
  }

  lemma {:induction false} FilterUpTo(log: seq<StatusChange>, s: int)
    requires Sorted(log)
    ensures Filter(log, AtOrBefore(s)) == log[..Count(log, FromUnix(s + 1) - 1)]
  {
    if log != [] {
      var init, c := log[..|log| - 1], log[|log| - 1];
      FilterUpTo(init, s);
      if c.changedAt <= FromUnix(s + 1) - 1 {
        if init != [] { CountIs(init, FromUnix(s + 1) - 1, |init|); }
        assert Filter(log, AtOrBefore(s)) == init + [c];
      }
    }
  }

  lemma {:induction false} FilterFrom(log: seq<StatusChange>, s: int)
    requires Sorted(log)
    ensures Filter(log, AtOrAfter(s)) == log[Count(log, FromUnix(s) - 1)..]
  {
    if log != [] {
      var init, c := log[..|log| - 1], log[|log| - 1];
      FilterFrom(init, s);
      if c.changedAt <= FromUnix(s) - 1 {
        if init != [] { CountIs(init, FromUnix(s) - 1, |init|); }
      } else {
        var k := Count(init, FromUnix(s) - 1);
        assert log[k..] == init[k..] + [c];
      }
    }
  }

  lemma {:induction false} FilterMembers(log: seq<StatusChange>, bound: Bound)
    ensures forall c :: c in Filter(log, bound) <==> c in log && bound.Admits(ToUnix(c.changedAt))
  {
    if log != [] {
      FilterMembers(log[..|log| - 1], bound);
      assert log == log[..|log| - 1] + [log[|log| - 1]];
    }
  }

  lemma InsertBeforeLast(log: seq<StatusChange>, c: StatusChange, last: StatusChange)
    requires c.changedAt < last.changedAt
    ensures Insert(log + [last], c) == Insert(log, c) + [last]
  {
    assert (log + [last])[..|log|] == log;
  }

  lemma InsertFilterLast(log: seq<StatusChange>, c: StatusChange, bound: Bound)
    requires Sorted(log)
    requires log == [] || log[|log| - 1].changedAt <= c.changedAt
    ensures Filter(log + [c], bound) ==
      if bound.Admits(ToUnix(c.changedAt)) then Insert(Filter(log, bound), c) else Filter(log, bound)
  {
    FilterAppend(log, c, bound);
    FilterMembers(log, bound);
    var f := Filter(log, bound);
    if f != [] {
      assert f[|f| - 1] in f;
      assert f[|f| - 1] in log;
    }
  }

  // Sorting after a WHERE clause is the same as filtering the sorted log.
  lemma {:induction false} InsertFilter(log: seq<StatusChange>, c: StatusChange, bound: Bound)
    requires Sorted(log)
    ensures Filter(Insert(log, c), bound) ==
      if bound.Admits(ToUnix(c.changedAt)) then Insert(Filter(log, bound), c) else Filter(log, bound)
  {
    if log == [] || log[|log| - 1].changedAt <= c.changedAt {
      InsertFilterLast(log, c, bound);
    } else {
      var init, last := log[..|log| - 1], log[|log| - 1];
      InsertFilter(init, c, bound);
      var f, ins := Filter(init, bound), Insert(init, c);
      assert Insert(log, c) == ins + [last];
      FilterAppend(ins, last, bound);
      InsertBeforeLast(f, c, last);
      FloorMonotone(c.changedAt, last.changedAt);
      if bound.Admits(ToUnix(last.changedAt)) {
        assert Filter(log, bound) == f + [last];
      } else {
        assert Filter(log, bound) == f;
      }
    }
  }

  lemma {:induction false} SelectIsFilter(rows: seq<StatusRow>, id: string, bound: Bound)
    ensures Select(rows, id, bound) == Filter(Log(rows, id), bound)
  {
    if rows != [] {
      var init, r := rows[..|rows| - 1], rows[|rows| - 1];
      SelectIsFilter(init, id, bound);
      SelectSorts(init, id, Any);
      if r.tunnelID == id {
        InsertFilter(Log(init, id), Read(r), bound);
        FloorOrder(r.changedAt, 0);
      }
    }
  }

  // StatusAt's query: the last row of those at or before t's second.
  lemma LatestIsStatusOf(rows: seq<StatusRow>, id: string, t: int)
    ensures var found := Select(rows, id, AtOrBefore(ToUnix(t)));
      StatusOf(Log(rows, id), t) == if found == [] then None else Some(found[|found| - 1].status)
  {
    hide Select, Count, Filter;
    var log := Log(rows, id);
    SelectIsFilter(rows, id, AtOrBefore(ToUnix(t)));
    SelectSorts(rows, id, Any);
    FilterUpTo(log, ToUnix(t));
    SecondCount(log, t);
  }

  // The first k rows of the log, and only those, lie before the second.
  predicate SplitsAt(log: seq<StatusChange>, k: nat, second: int)
    requires k <= |log|
  {
    forall i :: 0 <= i < |log| ==> (i < k <==> log[i].changedAt < FromUnix(second))
  }

  // out is what the log says from the second on.
  ghost predicate TailSince(out: seq<StatusChange>, log: seq<StatusChange>, second: int) {
    exists k :: 0 <= k <= |log| && out == log[k..] && SplitsAt(log, k, second)
  }

  // A query from a second on returns a tail of the whole log.
  lemma HistoryIsSuffix(rows: seq<StatusRow>, id: string, second: int)
    ensures TailSince(Select(rows, id, AtOrAfter(second)), Log(rows, id), second)
  {
    var log := Log(rows, id);
    SelectIsFilter(rows, id, AtOrAfter(second));
    SelectSorts(rows, id, Any);
    FilterFrom(log, second);
    CountSplits(log, FromUnix(second) - 1);
    assert SplitsAt(log, Count(log, FromUnix(second) - 1), second);
  }

  // Rows carry whole seconds, so nothing changes between t and the end of its second.
  lemma SecondCount(log: seq<StatusChange>, t: int)
    requires Sorted(log) && Whole(log)
    ensures Count(log, FromUnix(ToUnix(t) + 1) - 1) == Count(log, t)
  {
    CountSplits(log, t);
    var k := Count(log, t);
    if k < |log| {
      assert log[k].changedAt % 1_000_000_000 == 0 && t < log[k].changedAt;
    }
    CountIs(log, FromUnix(ToUnix(t) + 1) - 1, k);
  }

  // ---- healthy time ----

  // Between two rows the status does not move, so healthy time there is all or nothing.
  lemma {:induction false} Segment(log: seq<StatusChange>, k: nat, a: int, b: int)
    requires Sorted(log) && 0 < k <= |log| && log[k - 1].changedAt <= a
    requires k == |log| || b <= log[k].changedAt
    ensures HealthyInstants(log, a, b) == if log[k - 1].status == HEALTHY then Max(0, b - a) else 0
    decreases b - a
  {
    if a < b {
      Segment(log, k, a, b - 1);
      CountIs(log, b - 1, k);
    }
  }

  // Healthy time over adjacent windows adds up.
  lemma {:induction false} HealthyAdditive(log: seq<StatusChange>, a: int, b: int, c: int)
    requires a <= b <= c
    ensures HealthyInstants(log, a, c) == HealthyInstants(log, a, b) + HealthyInstants(log, b, c)
    decreases c - b
  {
    if b < c {
      HealthyAdditive(log, a, b, c - 1);
    }
  }

  lemma {:induction false} HealthyBounded(log: seq<StatusChange>, a: int, b: int)
    ensures HealthyInstants(log, a, b) <= Max(0, b - a)
    ensures a < b ==> (HealthyInstants(log, a, b) == b - a <==>
      forall s :: a <= s < b ==> StatusOf(log, s) == Some(HEALTHY))
    decreases b - a
  {
    if a < b {
      HealthyBounded(log, a, b - 1);
      if a < b - 1 && HealthyInstants(log, a, b) == b - a {
        assert forall s :: a <= s < b - 1 ==> StatusOf(log, s) == Some(HEALTHY);
      }
    }
  }

  // The instants of [a, b) at which the status in effect is healthy.
  ghost function HealthySet(log: seq<StatusChange>, a: int, b: int): set<int> {
    set s | a <= s < b && StatusOf(log, s) == Some("healthy")
  }

  lemma {:induction false} HealthyIsSet(log: seq<StatusChange>, a: int, b: int)
    ensures HealthyInstants(log, a, b) == |HealthySet(log, a, b)|
    decreases b - a
  {
    hide StatusOf;
    if a < b {
      HealthyIsSet(log, a, b - 1);
      var before := HealthySet(log, a, b - 1);
      assert HealthySet(log, a, b) == if StatusOf(log, b - 1) == Some("healthy") then before + {b - 1} else before;
    } else {
      assert HealthySet(log, a, b) == {};
    }
  }

  // Healthy time depends only on the status in effect.
  lemma {:induction false} HealthyAgrees(log: seq<StatusChange>, other: seq<StatusChange>, a: int, b: int)
    requires forall s :: a <= s < b ==> StatusOf(log, s) == StatusOf(other, s)
    ensures HealthyInstants(log, a, b) == HealthyInstants(other, a, b)
    decreases b - a
  {
    if a < b {
      HealthyAgrees(log, other, a, b - 1);
    }
  }
}
