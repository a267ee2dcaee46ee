// The tables behind the read model, changed in place by one transaction at a time.
module Stores {
  import opened Clock
  import opened StatusLog
  import opened UptimeSpec
  import opened Inventory
  import opened Pruning

  class Store {
    var tunnels: Table
    var history: seq<StatusRow>
    var ingress: seq<IngressRule>

    ghost predicate Valid()
      reads this
    {
      Keyed(tunnels)
    }

    constructor ()
      ensures Valid() && tunnels == map[] && history == [] && ingress == []
    {
      tunnels, history, ingress := map[], [], [];
    }

    // Upserts the snapshot, appends one history row per transition and removes what is no longer listed.
    method SaveTunnels(snapshot: seq<Tunnel>, now: int) returns (diff: TunnelDiff)
      requires Valid()
      modifies this
      ensures Valid()
      ensures State(tunnels, history) == Save(State(old(tunnels), old(history)), Poll(now, snapshot))
      ensures ingress == Without(old(ingress), old(tunnels).Keys - Ids(snapshot))
      ensures DiffOf(old(tunnels), snapshot, now, diff)
      ensures old(history) <= history
      ensures SaveFacts(old(tunnels), old(ingress), snapshot, now, tunnels, ingress, history[|old(history)|..], diff)
      ensures old(NoOrphans(ingress, tunnels)) ==> NoOrphans(ingress, tunnels)
    {
      var previous := tunnels;
      var seen, changes, added := UpsertAll(snapshot, now);
      var removed := RemoveMissing(previous, seen);
      diff := TunnelDiff(changes, added, removed);
      SaveNets(previous, snapshot, now);
      SavedFacts(previous, old(ingress), snapshot, now, diff);
      hide RowsOf, ChangesOf, AddedOf, Without, SaveFacts, DiffOf, NoOrphans, SavedTunnels;
      assert history[|old(history)|..] == RowsOf(ChangesOf(previous, snapshot, now));
    }

    method UpsertAll(snapshot: seq<Tunnel>, now: int)
      returns (seen: set<string>, changes: seq<StatusChange>, added: seq<Tunnel>)
      modifies this`tunnels, this`history
      ensures tunnels == old(tunnels) + SavedTunnels(old(tunnels), snapshot, now)
      ensures history == old(history) + RowsOf(changes)
      ensures seen == Ids(snapshot)
      ensures changes == ChangesOf(old(tunnels), snapshot, now)
      ensures added == AddedOf(old(tunnels), snapshot)
    {
      hide RowsOf, ChangesOf, AddedOf, SavedTunnels;
      var previous := tunnels;
      seen, changes, added := {}, [], [];
      NothingSaved(previous, now);
      assert snapshot[..0] == [];
      ghost var appended: seq<StatusRow> := [];
      for i := 0 to |snapshot|
        invariant seen == Ids(snapshot[..i])
        invariant changes == ChangesOf(previous, snapshot[..i], now)
        invariant added == AddedOf(previous, snapshot[..i])
        invariant history == old(history) + appended && appended == RowsOf(changes)
        invariant tunnels == previous + SavedTunnels(previous, snapshot[..i], now)
      {
        SnapshotStep(previous, snapshot, i, now);
        SavedStep(previous, snapshot, i, now);
        var t := snapshot[i];
        seen := seen + {t.id};
        if t.id !in previous {
          added := added + [t];
        }
        if t.id !in previous || previous[t.id].status != t.status {
          var from := if t.id in previous then previous[t.id].status else "";
          var change := StatusChange(t.id, from, t.status, now);
          RowsAppend(changes, change);
          appended := appended + [RowOf(change)];
          changes := changes + [change];
          AppendHistory(change);
        }
        UpsertTunnel(previous, t, now);
        UnionUpdate(previous, SavedTunnels(previous, snapshot[..i], now), t.id, Stored(previous, t, now));
      }
      assert snapshot[..|snapshot|] == snapshot;
    }

    method AppendHistory(change: StatusChange)
      modifies this`history
      ensures history == old(history) + [RowOf(change)]
    {
      history := history + [RowOf(change)];
    }

    method UpsertTunnel(previous: Table, t: Tunnel, now: int)
      modifies this`tunnels
      ensures tunnels == old(tunnels)[t.id := Stored(previous, t, now)]
    {
      var firstSeen := FromUnix(ToUnix(now));
      if t.id in previous {
        firstSeen := previous[t.id].firstSeen;
      }
      tunnels := tunnels[t.id := t.(firstSeen := firstSeen, lastSeen := FromUnix(ToUnix(now)))];
    }

    method RemoveMissing(previous: Table, seen: set<string>) returns (removed: seq<Tunnel>)
      requires Keyed(previous)
      modifies this`tunnels, this`ingress
      ensures tunnels == old(tunnels) - (previous.Keys - seen)
      ensures ingress == Without(old(ingress), previous.Keys - seen)
      ensures Lists(removed, previous, previous.Keys - seen)
    {
      removed := [];
      var rest := previous.Keys;
      ghost var gone: set<string> := {};
      WithoutNone(ingress);
      while rest != {}
        invariant rest <= previous.Keys
        invariant gone == previous.Keys - rest - seen
        invariant tunnels == old(tunnels) - gone
        invariant Lists(removed, previous, gone)
        invariant ingress == Without(old(ingress), gone)
        decreases rest
      {
        var id :| id in rest;
        rest := rest - {id};
        if id in seen {
          continue;
        }
        ListsStep(removed, previous, gone, id);
        removed := removed + [previous[id]];
        tunnels := tunnels - {id};
        WithoutTwice(old(ingress), gone, {id});
        ingress := Without(ingress, {id});
        gone := gone + {id};
      }
      assert gone == previous.Keys - seen;
    }

    // The tunnel's old rules go, the given ones come behind the others.
    method ReplaceIngress(tunnelID: string, rules: seq<IngressRule>)
      requires Valid()
      requires forall r :: r in rules ==> r.tunnelID == tunnelID
      modifies this`ingress
      ensures Valid() && ingress == Without(old(ingress), {tunnelID}) + rules
      ensures tunnelID in tunnels && old(NoOrphans(ingress, tunnels)) ==> NoOrphans(ingress, tunnels)
    {
      WithoutMembers(ingress, {tunnelID});
      ingress := Without(ingress, {tunnelID});
      for i := 0 to |rules|
        invariant ingress == Without(old(ingress), {tunnelID}) + rules[..i]
      {
        ingress := ingress + [rules[i]];
      }
    }

    // What happened to a tunnel from a second on: a tail of its whole log, in the log's order.
    method StatusHistory(tunnelID: string, since: int) returns (out: seq<StatusChange>)
      ensures Sorted(out)
      ensures forall c :: c in out <==>
        exists r :: r in history && r.tunnelID == tunnelID && ToUnix(since) <= r.changedAt && Read(r) == c
      ensures TailSince(out, Log(history, tunnelID), ToUnix(since))
    {
      SelectSorts(history, tunnelID, AtOrAfter(ToUnix(since)));
      HistoryIsSuffix(history, tunnelID, ToUnix(since));
      hide Select, TailSince;
      out := Select(history, tunnelID, AtOrAfter(ToUnix(since)));
    }

    // What the newest row up to t's second says, if there is one.
    method StatusAt(tunnelID: string, t: int) returns (status: string, known: bool)
      ensures StatusOf(Log(history, tunnelID), t) == if known then Some(status) else None
      ensures !known ==> status == ""
    {
      LatestIsStatusOf(history, tunnelID, t);
      var rows := Select(history, tunnelID, AtOrBefore(ToUnix(t)));
      if rows == [] {
        return "", false;
      }
      return rows[|rows| - 1].status, true;
    }

    // The report that the exact integral over the clamped window gives.
    method UptimeFor(tunnelID: string, window: int, now: int) returns (u: Uptime)
      ensures u == UptimeOf(Log(history, tunnelID), window, now)
      ensures Reports(u, Log(history, tunnelID), window, now)
    {
      hide *;
      var changes := StatusHistory(tunnelID, now - window);
      var status, known := StatusAt(tunnelID, now - window);
      ghost var log, k := UptimeQueries(history, tunnelID, now - window, changes);
      u := Summarize(changes, status, known, window, now, log, k);
      UptimeReports(log, window, now);
    }

    // The arithmetic of UptimeFor on the two query results; the history is log from its kth row on.
    method Summarize(history: seq<StatusChange>, status: string, known: bool, window: int, now: int,
                     ghost log: seq<StatusChange>, ghost k: nat)
      returns (u: Uptime)
      requires Sorted(log) && k <= Count(log, now - window) && history == log[k..]
      requires StatusOf(log, now - window) == if known then Some(status) else None
      ensures u == UptimeOf(log, window, now)
    {
      hide HealthyInstants, Count, UptimeOf;
      var changes := history;
      var effectiveStart, current := now - window, status;
      if known {
        // The baseline stands for the rows up to the window start, so they must not count again.
        changes := SkipConsumed(history, now - window, log, k);
      } else {
        if |changes| == 0 {
          Unobserved(log, window, now);
          return Uptime(window, 0.0, 0, false);
        }
        effectiveStart, current := changes[0].changedAt, changes[0].status;
        changes := changes[1..];
      }
      BaselineSwept(log, now - window);
      var healthy, transitions :=
        Integrate(changes, effectiveStart, current, now, log, Max(1, Count(log, now - window)));
      Reported(log, window, now, healthy, transitions);
      var observed := now - effectiveStart;
      if observed <= 0 {
        return Uptime(0, 0.0, transitions, true);
      }
      return Uptime(observed, healthy as real / observed as real, transitions, true);
    }

    method SkipConsumed(history: seq<StatusChange>, windowStart: int, ghost log: seq<StatusChange>, ghost k: nat)
      returns (changes: seq<StatusChange>)
      requires Sorted(log) && k <= Count(log, windowStart) && history == log[k..]
      ensures changes == log[Count(log, windowStart)..]
    {
      CountSplits(log, windowStart);
      hide Count;
      changes := history;
      ghost var i := k;
      while |changes| > 0 && changes[0].changedAt <= windowStart
        invariant k <= i <= Count(log, windowStart) && changes == log[i..]
        decreases |changes|
      {
        changes := changes[1..];
        i := i + 1;
      }
    }

    // The sweep over the transitions after the baseline; log and k name where they come from.
    method Integrate(changes: seq<StatusChange>, start: int, initial: string, now: int,
                     ghost log: seq<StatusChange>, ghost k: nat)
      returns (healthy: int, transitions: int)
      requires Sorted(log) && Swept(log, k, start, initial) && changes == log[k..]
      ensures healthy == HealthyInstants(log, start, now)
      ensures transitions == Max(0, Count(log, now) - k)
    {
      healthy, transitions := 0, 0;
      var cursor, current := start, initial;
      while transitions < |changes|
        invariant 0 <= transitions <= |changes|
        invariant Swept(log, k + transitions, cursor, current)
        invariant start <= cursor && (if transitions == 0 then cursor == start else cursor <= now)
        invariant healthy == HealthyInstants(log, start, cursor)
      {
        var c := changes[transitions];
        if now < c.changedAt {
          break;
        }
        Segment(log, k + transitions, cursor, c.changedAt);
        HealthyAdditive(log, start, cursor, c.changedAt);
        healthy := healthy + AddHealthy(current, cursor, c.changedAt);
        cursor, current := c.changedAt, c.status;
        transitions := transitions + 1;
      }
      Segment(log, k + transitions, cursor, now);
      if cursor <= now {
        HealthyAdditive(log, start, cursor, now);
        CountIs(log, now, k + transitions);
      } else {
        CountBelow(log, now, k);
      }
      healthy := healthy + AddHealthy(current, cursor, now);
    }

    // Deletes the history rows before the cutoff's second: each remaining row keeps its multiplicity, and
    // of each tunnel's log exactly the tail since the cutoff is left.
    method Prune(cutoff: int)
      requires Valid()
      modifies this`history
      ensures Valid() && history == Retained(old(history), ToUnix(cutoff))
      ensures forall r :: multiset(history)[r] == if r.changedAt < ToUnix(cutoff) then 0 else multiset(old(history))[r]
      ensures forall id :: TailSince(Log(history, id), Log(old(history), id), ToUnix(cutoff))
    {
      var kept: seq<StatusRow> := [];
      for i := 0 to |history|
        invariant history == old(history) && kept == Retained(history[..i], ToUnix(cutoff))
      {
        assert history[..i + 1][..i] == history[..i];
        if ToUnix(cutoff) <= history[i].changedAt {
          kept := kept + [history[i]];
        }
      }
      assert history[..|history|] == history;
      hide Retained, Log, Select, TailSince;
      RetainedRows(history, ToUnix(cutoff));
      forall id ensures TailSince(Log(kept, id), Log(history, id), ToUnix(cutoff)) {
        PruneKeepsTail(history, ToUnix(cutoff), id);
        HistoryIsSuffix(history, id, ToUnix(cutoff));
      }
      history := kept;
    }
  }

  // The first k rows are consumed, cursor lies before the next one, and current is in effect.
  ghost predicate Swept(log: seq<StatusChange>, k: nat, cursor: int, current: string) {
    && 0 < k <= |log| && log[k - 1].changedAt <= cursor && log[k - 1].status == current
    && (k == |log| || cursor <= log[k].changedAt)
  }

  // The queried rows, in terms of the log they come from; nothing beyond the window start is skipped.
  lemma UptimeQueries(rows: seq<StatusRow>, id: string, windowStart: int, found: seq<StatusChange>)
    returns (log: seq<StatusChange>, k: nat)
    requires TailSince(found, Log(rows, id), ToUnix(windowStart))
    ensures log == Log(rows, id) && Sorted(log)
    ensures k <= Count(log, windowStart) && found == log[k..]
  {
    log := Log(rows, id);
    SelectSorts(rows, id, Any);
    CountSplits(log, windowStart);
    k :| 0 <= k <= |log| && found == log[k..] && SplitsAt(log, k, ToUnix(windowStart));
    assert k > 0 ==> log[k - 1].changedAt < FromUnix(ToUnix(windowStart));
  }

  lemma BaselineSwept(log: seq<StatusChange>, windowStart: int)
    requires Sorted(log) && log != []
    ensures var at, start := StatusOf(log, windowStart), EffectiveStart(log, windowStart);
      && Swept(log, Max(1, Count(log, windowStart)), start, if at.Some? then at.value else log[0].status)
      && start == (if at.Some? then windowStart else log[0].changedAt)
  {
    CountSplits(log, windowStart);
  }

  lemma Unobserved(log: seq<StatusChange>, window: int, now: int)
    requires log == []
    ensures UptimeOf(log, window, now) == Uptime(window, 0.0, 0, false)
  {
  }

  // What the sweep returns is what UptimeOf asks for.
  lemma Reported(log: seq<StatusChange>, window: int, now: int, healthy: int, transitions: int)
    requires log != []
    requires healthy == HealthyInstants(log, EffectiveStart(log, now - window), now)
    requires transitions == Max(0, Count(log, now) - Max(1, Count(log, now - window)))
    ensures var observed := now - EffectiveStart(log, now - window);
      UptimeOf(log, window, now) == if observed <= 0 then Uptime(0, 0.0, transitions, true)
                                    else Uptime(observed, healthy as real / observed as real, transitions, true)
  {
  }

  lemma CountBelow(log: seq<StatusChange>, t: int, k: nat)
    requires Sorted(log) && k <= |log| && (k == |log| || t < log[k].changedAt)
    ensures Count(log, t) <= k
  {
    CountSplits(log, t);
  }

  lemma UnionUpdate(a: Table, b: Table, id: string, t: Tunnel)
    ensures (a + b)[id := t] == a + b[id := t]
  {
  }

  lemma SaveNets(previous: Table, snapshot: seq<Tunnel>, now: int)
    ensures previous + SavedTunnels(previous, snapshot, now) - (previous.Keys - Ids(snapshot))
      == SavedTunnels(previous, snapshot, now)
    ensures Keyed(SavedTunnels(previous, snapshot, now))
  {
    forall id | id in Ids(snapshot) ensures LastOf(snapshot, id).id == id {
      LastOfIsMember(snapshot, id);
    }
  }

  lemma ListsStep(removed: seq<Tunnel>, previous: Table, gone: set<string>, id: string)
    requires Keyed(previous) && Lists(removed, previous, gone) && id in previous && id !in gone
    ensures Lists(removed + [previous[id]], previous, gone + {id})
  {
    var longer := removed + [previous[id]];
    forall i | 0 <= i < |removed| ensures removed[i].id != id {
      assert removed[i] in removed;
    }
  }

  function AddHealthy(current: string, from: int, until: int): int {
    if current == HEALTHY then Max(0, until - from) else 0
  }
}
