// The event log, replayed: it rebuilds the stored states, and each event names the state it leaves.
module EventSourcing {
  import opened Clock
  import opened Events
  import opened StatusLog
  import opened Inventory
  import opened Stores
  import opened Collectors

  type States = map<string, string>

  function Apply(m: States, e: Event): States {
    match e.kind
    case TunnelAdded => m[e.tunnelID := e.toState]
    case TunnelStatus => m[e.tunnelID := e.toState]
    case TunnelRemoved => m - {e.tunnelID}
    case _ => m
  }

  function Replay(m: States, events: seq<Event>): States {
    if events == [] then m else Apply(Replay(m, events[..|events| - 1]), events[|events| - 1])
  }

  function StatesOf(table: Table): States {
    map id | id in table :: table[id].status
  }

  // Each status or removed event names the state it leaves.
  ghost predicate Truthful(m: States, events: seq<Event>) {
    forall k :: 0 <= k < |events| && (events[k].kind.TunnelStatus? || events[k].kind.TunnelRemoved?) ==>
      var before := Replay(m, events[..k]);
      events[k].tunnelID in before && before[events[k].tunnelID] == events[k].fromState
  }

  lemma {:induction false} ReplayConcat(m: States, a: seq<Event>, b: seq<Event>)
    ensures Replay(m, a + b) == Replay(Replay(m, a), b)
  {
    if b == [] {
      assert a + b == a;
    } else {
      ReplayConcat(m, a, b[..|b| - 1]);
      assert (a + b)[..|a + b| - 1] == a + b[..|b| - 1];
    }
  }

  lemma TruthfulConcat(m: States, a: seq<Event>, b: seq<Event>)
    requires Truthful(m, a) && Truthful(Replay(m, a), b)
    ensures Truthful(m, a + b)
  {
    var both := a + b;
    forall k | 0 <= k < |both| && (both[k].kind.TunnelStatus? || both[k].kind.TunnelRemoved?)
      ensures var before := Replay(m, both[..k]);
        both[k].tunnelID in before && before[both[k].tunnelID] == both[k].fromState
    {
      if k < |a| {
        assert both[..k] == a[..k];
      } else {
        assert both[..k] == a + b[..k - |a|];
        ReplayConcat(m, a, b[..k - |a|]);
      }
    }
  }

  predicate Touches(e: Event, id: string) {
    ConcernsTunnels(e.kind) && e.tunnelID == id
  }

  lemma {:induction false} ReplayUntouched(m: States, events: seq<Event>, id: string)
    requires forall e :: e in events ==> !Touches(e, id)
    ensures id in Replay(m, events) <==> id in m
    ensures id in m ==> Replay(m, events)[id] == m[id]
  {
    if events != [] {
      var init, e := events[..|events| - 1], events[|events| - 1];
      assert e in events;
      ReplayUntouched(m, init, id);
    }
  }

  // With one event per tunnel, that event alone decides.
  lemma {:induction false} ReplayOnce(m: States, events: seq<Event>, k: nat, id: string)
    requires k < |events| && Touches(events[k], id)
    requires forall i :: 0 <= i < |events| && i != k ==> !Touches(events[i], id)
    ensures events[k].kind.TunnelRemoved? ==> id !in Replay(m, events)
    ensures !events[k].kind.TunnelRemoved? ==> id in Replay(m, events) && Replay(m, events)[id] == events[k].toState
  {
    if k < |events| - 1 {
      ReplayOnce(m, events[..|events| - 1], k, id);
    }
  }

  // ---- the events of one save ----

  // What an event may say about the step from prev to the saved snapshot.
  predicate Fits(prev: Table, snapshot: seq<Tunnel>, e: Event) {
    match e.kind
    case TunnelAdded =>
      e.tunnelID !in prev && e.tunnelID in Ids(snapshot) && e.toState == LastOf(snapshot, e.tunnelID).status
    case TunnelRemoved => e.tunnelID in prev && e.tunnelID !in Ids(snapshot) && e.fromState == prev[e.tunnelID].status
    case TunnelStatus =>
      && e.tunnelID in prev && e.tunnelID in Ids(snapshot)
      && e.fromState == prev[e.tunnelID].status && e.toState == LastOf(snapshot, e.tunnelID).status
    case _ => true
  }

  predicate OncePerTunnel(events: seq<Event>) {
    forall i, j :: 0 <= i < j < |events| ==> events[i].tunnelID != events[j].tunnelID
  }

  predicate Differs(prev: Table, snapshot: seq<Tunnel>, id: string) {
    if id in prev && id in Ids(snapshot) then prev[id].status != LastOf(snapshot, id).status
    else id in prev || id in Ids(snapshot)
  }

  ghost predicate Covers(prev: Table, snapshot: seq<Tunnel>, events: seq<Event>) {
    forall id :: Differs(prev, snapshot, id) ==> exists k :: 0 <= k < |events| && Touches(events[k], id)
  }

  // Events that fit, cover every difference and name no tunnel twice rebuild the saved table.
  lemma FittingEventsRebuild(prev: Table, snapshot: seq<Tunnel>, now: int, events: seq<Event>)
    requires (forall e :: e in events ==> Fits(prev, snapshot, e) && ConcernsTunnels(e.kind))
    requires OncePerTunnel(events) && Covers(prev, snapshot, events)
    ensures Replay(StatesOf(prev), events) == StatesOf(SavedTunnels(prev, snapshot, now))
    ensures Truthful(StatesOf(prev), events)
  {
    var m, after := StatesOf(prev), StatesOf(SavedTunnels(prev, snapshot, now));
    var replayed := Replay(m, events);
    forall id
      ensures id in replayed <==> id in after
      ensures id in after ==> id in replayed && replayed[id] == after[id]
    {
      if k :| 0 <= k < |events| && Touches(events[k], id) {
        assert events[k] in events;
        ReplayOnce(m, events, k, id);
      } else {
        assert !Differs(prev, snapshot, id);
        ReplayUntouched(m, events, id);
      }
    }
    forall k | 0 <= k < |events| && (events[k].kind.TunnelStatus? || events[k].kind.TunnelRemoved?)
      ensures var before := Replay(m, events[..k]);
        events[k].tunnelID in before && before[events[k].tunnelID] == events[k].fromState
    {
      assert events[k] in events;
      ReplayUntouched(m, events[..k], events[k].tunnelID);
    }
  }

  lemma {:induction false} AddedFacts(prev: Table, snapshot: seq<Tunnel>)
    requires Distinct(snapshot)
    ensures Distinct(AddedOf(prev, snapshot))
    ensures forall t :: t in AddedOf(prev, snapshot) <==> t in snapshot && t.id !in prev
  {
    if snapshot != [] {
      var init, t := snapshot[..|snapshot| - 1], snapshot[|snapshot| - 1];
      AddedFacts(prev, init);
      assert snapshot == init + [t];
      var added := AddedOf(prev, init);
      forall i | 0 <= i < |added| ensures added[i].id != t.id {
        assert added[i] in init;
      }
    }
  }

  lemma {:induction false} StatusFacts(prev: Table, snapshot: seq<Tunnel>, now: int, added: set<string>)
    requires Distinct(snapshot) && added == Ids(snapshot) - prev.Keys
    ensures var events := StatusEvents(ChangesOf(prev, snapshot, now), added);
      && OncePerTunnel(events)
      && (forall e :: e in events ==> e.kind.TunnelStatus? && Fits(prev, snapshot, e))
      && (forall t :: t in snapshot && t.id in prev && prev[t.id].status != t.status ==>
            exists k :: 0 <= k < |events| && events[k].tunnelID == t.id)
  {
    StatusFactsFrom(prev, snapshot, now, added);
    var events := StatusEvents(ChangesOf(prev, snapshot, now), added);
    forall e | e in events ensures e.kind.TunnelStatus? && Fits(prev, snapshot, e) {
      var t :| t in snapshot && t.id in prev && Moved(prev, t) && e == StatusEvent(ChangeOf(prev, t, now));
      assert t.id in Ids(snapshot);
      LastOfIsMember(snapshot, t.id);
    }
  }

  lemma {:induction false} StatusFactsFrom(prev: Table, snapshot: seq<Tunnel>, now: int, added: set<string>)
    requires Distinct(snapshot) && forall t :: t in snapshot ==> (t.id in added <==> t.id !in prev)
    ensures var events := StatusEvents(ChangesOf(prev, snapshot, now), added);
      && OncePerTunnel(events)
      && (forall e :: e in events ==>
            exists t :: t in snapshot && t.id in prev && Moved(prev, t) && e == StatusEvent(ChangeOf(prev, t, now)))
      && (forall t :: t in snapshot && t.id in prev && Moved(prev, t) ==>
            exists k :: 0 <= k < |events| && events[k].tunnelID == t.id)
  {
    if snapshot != [] {
      var init, t := snapshot[..|snapshot| - 1], snapshot[|snapshot| - 1];
      assert snapshot == init + [t];
      StatusFactsFrom(prev, init, now, added);
      var changes, c := ChangesOf(prev, init, now), ChangeOf(prev, t, now);
      var before := StatusEvents(changes, added);
      assert (changes + [c])[..|changes|] == changes;
      assert changes + [] == changes;
      assert before + [] == before;
      var events := StatusEvents(ChangesOf(prev, snapshot, now), added);
      assert events == if Moved(prev, t) && t.id in prev then before + [StatusEvent(c)] else before;
      hide StatusEvents, ChangesOf;
      forall i | 0 <= i < |before| ensures before[i].tunnelID != t.id {
        assert before[i] in before;
      }
      forall u | u in snapshot && u.id in prev && Moved(prev, u)
        ensures exists k :: 0 <= k < |events| && events[k].tunnelID == u.id
      {
        if u in init {
          var k :| 0 <= k < |before| && before[k].tunnelID == u.id;
          assert events[k].tunnelID == u.id;
        } else {
          assert events[|before|].tunnelID == u.id;
        }
      }
    }
  }

  lemma SaveEventsFit(prev: Table, snapshot: seq<Tunnel>, now: int, diff: TunnelDiff)
    requires Keyed(prev) && Distinct(snapshot) && DiffOf(prev, snapshot, now, diff)
    ensures forall e :: e in EventsOf(diff, now) ==> Fits(prev, snapshot, e) && ConcernsTunnels(e.kind)
    ensures OncePerTunnel(EventsOf(diff, now)) && Covers(prev, snapshot, EventsOf(diff, now))
  {
    var a, r := AddedEvents(diff.added, now), RemovedEvents(diff.removed, now);
    var s := StatusEvents(diff.changes, Ids(diff.added));
    var events := EventsOf(diff, now);
    AddedFacts(prev, snapshot);
    assert Ids(diff.added) == Ids(snapshot) - prev.Keys;
    StatusFacts(prev, snapshot, now, Ids(diff.added));
    hide StatusEvents, ChangesOf, AddedOf;
    forall i | 0 <= i < |a| ensures Fits(prev, snapshot, a[i]) {
      assert diff.added[i] in diff.added;
      LastOfIsMember(snapshot, diff.added[i].id);
    }
    forall i | 0 <= i < |r| ensures Fits(prev, snapshot, r[i]) {
      assert diff.removed[i] in diff.removed;
    }
    forall i | 0 <= i < |s| ensures Fits(prev, snapshot, s[i]) && s[i].kind.TunnelStatus? {
      assert s[i] in s;
    }
    OncePerTunnelJoins(prev, snapshot, a, r, s);
    SaveEventsCover(prev, snapshot, now, diff, a, r, s);
  }

  lemma SaveEventsCover(prev: Table, snapshot: seq<Tunnel>, now: int, diff: TunnelDiff,
                        a: seq<Event>, r: seq<Event>, s: seq<Event>)
    requires a == AddedEvents(diff.added, now) && r == RemovedEvents(diff.removed, now)
    requires forall t :: t in diff.added <==> t in snapshot && t.id !in prev
    requires Keyed(prev) && Lists(diff.removed, prev, prev.Keys - Ids(snapshot))
    requires forall t :: t in snapshot && t.id in prev && prev[t.id].status != t.status ==>
      exists k :: 0 <= k < |s| && s[k].tunnelID == t.id
    requires forall i :: 0 <= i < |s| ==> s[i].kind.TunnelStatus?
    ensures Covers(prev, snapshot, a + r + s)
  {
    var events := a + r + s;
    forall id | Differs(prev, snapshot, id) ensures exists k :: 0 <= k < |events| && Touches(events[k], id) {
      if id !in Ids(snapshot) {
        assert prev[id] in diff.removed;
        var k :| 0 <= k < |diff.removed| && diff.removed[k] == prev[id];
        assert events[|a| + k] == r[k];
      } else {
        LastOfIsMember(snapshot, id);
        var t := LastOf(snapshot, id);
        if id !in prev {
          assert t in diff.added;
          var k :| 0 <= k < |diff.added| && diff.added[k] == t;
          assert events[k] == a[k];
        } else {
          var k :| 0 <= k < |s| && s[k].tunnelID == id;
          assert events[|a| + |r| + k] == s[k];
        }
      }
    }
  }

  lemma OncePerTunnelJoins(prev: Table, snapshot: seq<Tunnel>, a: seq<Event>, r: seq<Event>, s: seq<Event>)
    requires OncePerTunnel(a) && OncePerTunnel(r) && OncePerTunnel(s)
    requires forall i :: 0 <= i < |a| ==> a[i].kind.TunnelAdded? && Fits(prev, snapshot, a[i])
    requires forall i :: 0 <= i < |r| ==> r[i].kind.TunnelRemoved? && Fits(prev, snapshot, r[i])
    requires forall i :: 0 <= i < |s| ==> s[i].kind.TunnelStatus? && Fits(prev, snapshot, s[i])
    ensures OncePerTunnel(a + r + s)
    ensures forall e :: e in a + r + s ==> Fits(prev, snapshot, e) && ConcernsTunnels(e.kind)
  {
  }

  // ---- event sourcing over whole runs ----

  // The log rebuilds the stored states, and every event in it told the truth when it was written.
  ghost predicate Sourced(table: Table, log: seq<Event>) {
    Keyed(table) && Replay(map[], log) == StatesOf(table) && Truthful(map[], log)
  }

  predicate DistinctListing(a: Answers) {
    a.listing.Some? ==> Distinct(a.listing.value)
  }

  lemma ForeignIsNeutral(m: States, foreign: seq<Event>)
    requires Foreign(foreign)
    ensures Replay(m, foreign) == m && Truthful(m, foreign)
  {
    forall e, id | e in foreign ensures !Touches(e, id) {
    }
    forall id ensures id in Replay(m, foreign) <==> id in m
              ensures id in m ==> Replay(m, foreign)[id] == m[id]
    {
      ReplayUntouched(m, foreign, id);
    }
    forall k | 0 <= k < |foreign| ensures !foreign[k].kind.TunnelStatus? && !foreign[k].kind.TunnelRemoved? {
      assert foreign[k] in foreign;
    }
  }

  // Appending events that say nothing about tunnels changes no replay.
  lemma ForeignAppended(log: seq<Event>, foreign: seq<Event>)
    requires Foreign(foreign)
    ensures Replay(map[], log + foreign) == Replay(map[], log)
    ensures Truthful(map[], log) ==> Truthful(map[], log + foreign)
  {
    ForeignIsNeutral(Replay(map[], log), foreign);
    ReplayConcat(map[], log, foreign);
    if Truthful(map[], log) {
      TruthfulConcat(map[], log, foreign);
    }
  }

  // Before retention, a cycle keeps the log in step with the table if and only if no save that changed
  // a status or the set of tunnels lost its event batch.
  lemma CycleKeepsSourcedIff(before: Table, log: seq<Event>, a: Answers, now: int, after: Table, log': seq<Event>)
    requires Sourced(before, log) && DistinctListing(a) && CycleStep(before, log, a, now, after, log')
    ensures Sourced(after, log') <==> (Saves(a) && !a.eventsOk ==> StatesOf(after) == StatesOf(before))
  {
    hide Replay, Truthful;
    if !Saves(a) {
      var foreign :| Foreign(foreign) && log' == log + foreign;
      ForeignAppended(log, foreign);
    } else {
      var snapshot := a.listing.value;
      var diff, foreign :|
        DiffOf(before, snapshot, now, diff) && Foreign(foreign) && log' == log + Written(a, diff, now) + foreign;
      SaveNets(before, snapshot, now);
      if a.eventsOk {
        SaveIsSourced(before, log, snapshot, now, diff);
        ForeignAppended(log + EventsOf(diff, now), foreign);
      } else {
        assert log + [] == log;
        ForeignAppended(log, foreign);
      }
    }
  }

  lemma SaveIsSourced(before: Table, log: seq<Event>, snapshot: seq<Tunnel>, now: int, diff: TunnelDiff)
    requires Sourced(before, log) && Distinct(snapshot) && DiffOf(before, snapshot, now, diff)
    ensures Sourced(SavedTunnels(before, snapshot, now), log + EventsOf(diff, now))
  {
    var events := EventsOf(diff, now);
    SaveEventsFit(before, snapshot, now, diff);
    FittingEventsRebuild(before, snapshot, now, events);
    SaveNets(before, snapshot, now);
    hide Replay, Truthful;
    ReplayConcat(map[], log, events);
    TruthfulConcat(map[], log, events);
  }
}
