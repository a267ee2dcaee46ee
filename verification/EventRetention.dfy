// What retention leaves of the event log, over whole runs.
module EventRetention {
  import opened Clock
  import opened Events
  import opened StatusLog
  import opened Inventory
  import opened Collectors
  import opened EventSourcing

  // The events about tunnels, which alone decide a replay.
  function Concerning(log: seq<Event>): seq<Event> {
    if log == [] then []
    else
      var e := log[|log| - 1];
      Concerning(log[..|log| - 1]) + (if ConcernsTunnels(e.kind) then [e] else [])
  }

  predicate InTimeOrder(events: seq<Event>) {
    forall i, j :: 0 <= i < j < |events| ==> events[i].timestamp <= events[j].timestamp
  }

  ghost predicate Mentions(log: seq<Event>, id: string) {
    exists k :: 0 <= k < |log| && Touches(log[k], id)
  }

  ghost predicate MentionedSince(log: seq<Event>, id: string, cutoff: int) {
    exists k :: 0 <= k < |log| && Touches(log[k], id) && cutoff <= ToUnix(log[k].timestamp)
  }

  lemma {:induction false} ConcerningConcat(a: seq<Event>, b: seq<Event>)
    ensures Concerning(a + b) == Concerning(a) + Concerning(b)
  {
    assert Concerning([]) == [];
    hide Concerning, ConcernsTunnels;
    if b == [] {
      assert a + b == a;
    } else {
      var init, e := b[..|b| - 1], b[|b| - 1];
      ConcerningConcat(a, init);
      Reassociate(a, init, [e]);
      ConcerningAppend(a + init, e);
      ConcerningAppend(init, e);
      Reassociate(Concerning(a), Concerning(init), if ConcernsTunnels(e.kind) then [e] else []);
      assert b == init + [e];
    }
  }

  lemma ConcerningAppend(log: seq<Event>, e: Event)
    ensures Concerning(log + [e]) == Concerning(log) + (if ConcernsTunnels(e.kind) then [e] else [])
  {
    assert (log + [e])[..|log|] == log;
  }

  lemma {:induction false} ConcerningReplays(m: States, log: seq<Event>)
    ensures Replay(m, Concerning(log)) == Replay(m, log)
    ensures forall id :: Mentions(Concerning(log), id) <==> Mentions(log, id)
  {
    if log != [] {
      var init, e := log[..|log| - 1], log[|log| - 1];
      var own := Concerning(init);
      ConcerningReplays(m, init);
      assert (own + [e])[..|own|] == own;
      assert own + [] == own;
      hide Replay;
      forall id ensures Mentions(Concerning(log), id) <==> Mentions(log, id) {
        MentionsAppend(own, e, id);
        MentionsAppend(init, e, id);
        assert log == init + [e];
      }
    }
  }

  lemma MentionsAppend(log: seq<Event>, e: Event, id: string)
    ensures Mentions(log + [e], id) <==> Mentions(log, id) || Touches(e, id)
  {
    var all := log + [e];
    if k :| 0 <= k < |log| && Touches(log[k], id) {
      assert Touches(all[k], id);
    }
    assert all[|log|] == e;
  }

  lemma {:induction false} RetentionCommutes(log: seq<Event>, cutoff: int)
    ensures Concerning(RetainedEvents(log, cutoff)) == RetainedEvents(Concerning(log), cutoff)
  {
    if log != [] {
      var init, e := log[..|log| - 1], log[|log| - 1];
      var kept, own := RetainedEvents(init, cutoff), Concerning(init);
      RetentionCommutes(init, cutoff);
      assert (kept + [e])[..|kept|] == kept && (own + [e])[..|own|] == own;
      assert kept + [] == kept && own + [] == own;
    }
  }

  // Of events in time order, retention keeps a tail.
  lemma {:induction false} RetentionKeepsTail(events: seq<Event>, cutoff: int) returns (j: nat)
    requires InTimeOrder(events)
    ensures j <= |events| && RetainedEvents(events, cutoff) == events[j..]
    ensures forall i :: 0 <= i < j ==> ToUnix(events[i].timestamp) < cutoff
  {
    if events == [] {
      return 0;
    }
    var init, e := events[..|events| - 1], events[|events| - 1];
    if ToUnix(e.timestamp) < cutoff {
      OlderAreGone(events, cutoff, e.timestamp);
      j := |events|;
    } else {
      j := RetentionKeepsTail(init, cutoff);
      assert init[j..] + [e] == events[j..];
    }
  }

  lemma {:induction false} OlderAreGone(events: seq<Event>, cutoff: int, t: int)
    requires ToUnix(t) < cutoff && forall i :: 0 <= i < |events| ==> events[i].timestamp <= t
    ensures RetainedEvents(events, cutoff) == []
    ensures forall i :: 0 <= i < |events| ==> ToUnix(events[i].timestamp) < cutoff
  {
    if events != [] {
      OlderAreGone(events[..|events| - 1], cutoff, t);
      FloorMonotone(events[|events| - 1].timestamp, t);
    }
  }

  // Whatever came before, the last event about a tunnel decides it.
  lemma {:induction false} MentionDecides(m: States, n: States, events: seq<Event>, id: string)
    requires Mentions(events, id)
    ensures id in Replay(m, events) <==> id in Replay(n, events)
    ensures id in Replay(m, events) ==> Replay(m, events)[id] == Replay(n, events)[id]
  {
    var init, e := events[..|events| - 1], events[|events| - 1];
    assert events == init + [e];
    MentionsAppend(init, e, id);
    if !Touches(e, id) {
      MentionDecides(m, n, init, id);
    }
  }

  // The tail of a log rebuilds the same states exactly when it still speaks about every one of them.
  lemma TailReplaysIff(m: States, events: seq<Event>, j: nat)
    requires j <= |events| && Replay(map[], events) == m
    ensures Replay(map[], events[j..]) == m <==> forall id :: id in m ==> Mentions(events[j..], id)
  {
    var head, tail := events[..j], events[j..];
    assert events == head + tail;
    ReplayConcat(map[], head, tail);
    forall id
      ensures Mentions(tail, id) ==> (id in Replay(map[], tail) <==> id in m)
      ensures Mentions(tail, id) && id in m ==> Replay(map[], tail)[id] == m[id]
      ensures !Mentions(tail, id) ==> id !in Replay(map[], tail)
    {
      if Mentions(tail, id) {
        MentionDecides(map[], Replay(map[], head), tail, id);
      } else {
        ReplayUntouched(map[], tail, id);
      }
    }
  }

  // What retention leaves rebuilds the table if and only if every stored tunnel has an event since the cutoff.
  lemma RetentionKeepsSourcedIff(table: Table, log: seq<Event>, cutoff: int)
    requires Sourced(table, log) && InTimeOrder(Concerning(log))
    ensures Replay(map[], RetainedEvents(log, cutoff)) == StatesOf(table)
      <==> forall id :: id in table ==> MentionedSince(log, id, cutoff)
  {
    var own, kept := Concerning(log), RetainedEvents(log, cutoff);
    var j := RetentionKeepsTail(own, cutoff);
    ConcerningReplays(map[], log);
    ConcerningReplays(map[], kept);
    RetentionCommutes(log, cutoff);
    hide Replay, Concerning, RetainedEvents;
    TailReplaysIff(StatesOf(table), own, j);
    forall id ensures Mentions(own[j..], id) <==> MentionedSince(log, id, cutoff) {
      MentionedInTail(log, cutoff, id);
    }
  }

  lemma MentionedInTail(log: seq<Event>, cutoff: int, id: string)
    ensures Mentions(RetainedEvents(Concerning(log), cutoff), id) <==> MentionedSince(log, id, cutoff)
  {
    RetentionCommutes(log, cutoff);
    ConcerningReplays(map[], RetainedEvents(log, cutoff));
    RetainedMentions(log, cutoff, id);
  }

  lemma {:induction false} RetainedMentions(log: seq<Event>, cutoff: int, id: string)
    ensures Mentions(RetainedEvents(log, cutoff), id) <==> MentionedSince(log, id, cutoff)
  {
    if log != [] {
      var init, e := log[..|log| - 1], log[|log| - 1];
      var kept := RetainedEvents(init, cutoff);
      RetainedMentions(init, cutoff, id);
      MentionsAppend(kept, e, id);
      assert kept + [] == kept;
      hide RetainedEvents;
      if k :| 0 <= k < |init| && Touches(init[k], id) && cutoff <= ToUnix(init[k].timestamp) {
        assert Touches(log[k], id);
      }
      if k :| 0 <= k < |log| && Touches(log[k], id) && cutoff <= ToUnix(log[k].timestamp) {
        assert k < |init| ==> Touches(init[k], id);
      }
    }
  }

  // A tunnel that was found before the cutoff and never moved since is forgotten by the event log.
  lemma RetentionForgets(t: Tunnel, added: Event, cutoff: int)
    requires added == Event(added.timestamp, TunnelAdded, t.id, "", "", t.status)
    requires ToUnix(added.timestamp) < cutoff
    ensures Sourced(map[t.id := t], [added])
    ensures Replay(map[], RetainedEvents([added], cutoff)) == map[] != StatesOf(map[t.id := t])
  {
    assert [added][..0] == [];
    assert Replay(map[], []) == map[];
    assert Replay(map[], [added]) == Apply(map[], added);
    assert RetainedEvents([added], cutoff) == RetainedEvents([], cutoff) + [];
    assert t.id in StatesOf(map[t.id := t]);
  }

  // ---- whole runs, retention included ----

  // Distinct listings, event writes that succeed, a clock that never goes back, and retention into the past.
  ghost predicate Orderly(answers: seq<Answers>, nows: seq<int>, retention: int) {
    && |nows| == |answers| && 0 <= retention
    && (forall n :: 0 <= n < |answers| ==> DistinctListing(answers[n]) && answers[n].eventsOk)
    && (forall i, j :: 0 <= i < j < |nows| ==> nows[i] <= nows[j])
  }

  // The cutoff the log was last cut at within the first n cycles, if it was cut at all.
  function Horizon(answers: seq<Answers>, nows: seq<int>, retention: int, n: nat): Option<int>
    requires n <= |answers| == |nows|
  {
    if n == 0 then None
    else if Prunes(answers[n - 1], n) then Some(ToUnix(nows[n - 1] - retention))
    else Horizon(answers, nows, retention, n - 1)
  }

  function Since(log: seq<Event>, horizon: Option<int>): seq<Event> {
    if horizon.None? then log else RetainedEvents(log, horizon.value)
  }

  // The log's events about tunnels are those of a complete log since the horizon, which lies at least
  // the retention before now.
  ghost predicate CutFrom(log: seq<Event>, full: seq<Event>, horizon: Option<int>, retention: int, now: int) {
    && Concerning(log) == Since(Concerning(full), horizon)
    && (horizon.None? ==> log == full)
    && (horizon.Some? ==> horizon.value <= ToUnix(now - retention))
    && InTimeOrder(Concerning(full))
    && forall e :: e in Concerning(full) ==> e.timestamp <= now
  }

  lemma {:induction false} RetainedConcat(a: seq<Event>, b: seq<Event>, cutoff: int)
    ensures RetainedEvents(a + b, cutoff) == RetainedEvents(a, cutoff) + RetainedEvents(b, cutoff)
  {
    assert RetainedEvents([], cutoff) == [];
    hide RetainedEvents, ToUnix;
    if b == [] {
      assert a + b == a;
    } else {
      var init, e := b[..|b| - 1], b[|b| - 1];
      RetainedConcat(a, init, cutoff);
      Reassociate(a, init, [e]);
      RetainedAppend(a + init, e, cutoff);
      RetainedAppend(init, e, cutoff);
      Reassociate(RetainedEvents(a, cutoff), RetainedEvents(init, cutoff),
                  if cutoff <= ToUnix(e.timestamp) then [e] else []);
      assert b == init + [e];
    }
  }

  lemma RetainedAppend(log: seq<Event>, e: Event, cutoff: int)
    ensures RetainedEvents(log + [e], cutoff)
      == RetainedEvents(log, cutoff) + (if cutoff <= ToUnix(e.timestamp) then [e] else [])
  {
    assert (log + [e])[..|log|] == log;
  }

  lemma {:induction false} RetainedTwice(log: seq<Event>, c: int, d: int)
    requires c <= d
    ensures RetainedEvents(RetainedEvents(log, c), d) == RetainedEvents(log, d)
  {
    if log != [] {
      var init, e := log[..|log| - 1], log[|log| - 1];
      var kept := RetainedEvents(init, c);
      RetainedTwice(init, c, d);
      assert (kept + [e])[..|kept|] == kept;
      assert kept + [] == kept;
      var late := RetainedEvents(init, d);
      assert late + [] == late;
    }
  }

  lemma {:induction false} RetainedFresh(events: seq<Event>, cutoff: int)
    requires forall e :: e in events ==> cutoff <= ToUnix(e.timestamp)
    ensures RetainedEvents(events, cutoff) == events
  {
    if events != [] {
      var init, e := events[..|events| - 1], events[|events| - 1];
      assert events == init + [e] && e in events;
      RetainedFresh(init, cutoff);
      RetainedAppend(init, e, cutoff);
      hide RetainedEvents;
    }
  }

  lemma {:induction false} ConcerningIsAll(events: seq<Event>)
    requires forall e :: e in events ==> ConcernsTunnels(e.kind)
    ensures Concerning(events) == events
  {
    if events != [] {
      assert events[|events| - 1] in events;
      ConcerningIsAll(events[..|events| - 1]);
    }
  }

  lemma {:induction false} ConcerningIsNone(events: seq<Event>)
    requires Foreign(events)
    ensures Concerning(events) == []
  {
    if events != [] {
      assert events[|events| - 1] in events;
      ConcerningIsNone(events[..|events| - 1]);
    }
  }

  lemma {:induction false} ChangesAtOnce(prev: Table, snapshot: seq<Tunnel>, now: int)
    ensures forall c :: c in ChangesOf(prev, snapshot, now) ==> c.changedAt == now
  {
    if snapshot != [] {
      ChangesAtOnce(prev, snapshot[..|snapshot| - 1], now);
    }
  }

  lemma {:induction false} StatusEventsAtOnce(changes: seq<StatusChange>, added: set<string>, now: int)
    requires forall c :: c in changes ==> c.changedAt == now
    ensures forall e :: e in StatusEvents(changes, added) ==> e.timestamp == now
  {
    if changes != [] {
      assert changes[|changes| - 1] in changes;
      StatusEventsAtOnce(changes[..|changes| - 1], added, now);
    }
  }

  // All events of a save carry the time of its cycle.
  lemma EventsAtOnce(prev: Table, snapshot: seq<Tunnel>, now: int, diff: TunnelDiff)
    requires DiffOf(prev, snapshot, now, diff)
    ensures forall e :: e in EventsOf(diff, now) ==> e.timestamp == now
  {
    ChangesAtOnce(prev, snapshot, now);
    StatusEventsAtOnce(diff.changes, Ids(diff.added), now);
    hide StatusEvents;
  }

  lemma InTimeOrderAppend(a: seq<Event>, b: seq<Event>, now: int)
    requires InTimeOrder(a) && forall e :: e in a ==> e.timestamp <= now
    requires forall e :: e in b ==> e.timestamp == now
    ensures InTimeOrder(a + b) && forall e :: e in a + b ==> e.timestamp <= now
  {
    var all := a + b;
    forall i, j | 0 <= i < j < |all| ensures all[i].timestamp <= all[j].timestamp {
      assert i < |a| ==> all[i] in a;
      assert j >= |a| ==> all[j] in b;
      assert i >= |a| ==> all[i] in b;
    }
  }

  // What a cycle writes goes behind both logs.
  lemma CutFromAppend(log: seq<Event>, full: seq<Event>, horizon: Option<int>, retention: int, was: int, now: int,
                      events: seq<Event>, foreign: seq<Event>)
    requires CutFrom(log, full, horizon, retention, was) && was <= now && 0 <= retention && Foreign(foreign)
    requires forall e :: e in events ==> e.timestamp == now && ConcernsTunnels(e.kind)
    ensures CutFrom(log + events + foreign, full + events + foreign, horizon, retention, now)
  {
    ConcerningIsAll(events);
    ConcerningIsNone(foreign);
    ConcerningConcat(log + events, foreign);
    ConcerningConcat(log, events);
    ConcerningConcat(full + events, foreign);
    ConcerningConcat(full, events);
    FloorMonotone(was - retention, now - retention);
    FloorMonotone(now - retention, now);
    hide Concerning, RetainedEvents, ToUnix, ConcernsTunnels;
    var own := Concerning(full);
    assert own + events + [] == own + events && Concerning(log) + events + [] == Concerning(log) + events;
    InTimeOrderAppend(own, events, now);
    if horizon.Some? {
      RetainedConcat(own, events, horizon.value);
      RetainedFresh(events, horizon.value);
    }
  }

  // Retention moves the horizon.
  lemma CutFromRetained(log: seq<Event>, full: seq<Event>, horizon: Option<int>, retention: int, now: int)
    requires CutFrom(log, full, horizon, retention, now)
    ensures var cutoff := ToUnix(now - retention); CutFrom(RetainedEvents(log, cutoff), full, Some(cutoff), retention, now)
  {
    var cutoff := ToUnix(now - retention);
    RetentionCommutes(log, cutoff);
    if horizon.Some? {
      RetainedTwice(Concerning(full), horizon.value, cutoff);
    }
    hide Concerning, RetainedEvents, ToUnix;
  }

  // One cycle, on top of a log that was cut from a complete one.
  lemma CycleCutFrom(before: Table, log: seq<Event>, a: Answers, was: int, now: int, after: Table, batch: seq<Event>,
                     full: seq<Event>, horizon: Option<int>, retention: int)
    returns (full': seq<Event>)
    requires Sourced(before, full) && CutFrom(log, full, horizon, retention, was) && was <= now && 0 <= retention
    requires DistinctListing(a) && a.eventsOk && CycleStep(before, log, a, now, after, batch)
    ensures Sourced(after, full') && CutFrom(batch, full', horizon, retention, now)
  {
    hide CutFrom, Sourced;
    if !Saves(a) {
      var foreign :| Foreign(foreign) && batch == log + foreign;
      assert log + [] == log && full + [] == full;
      CutFromAppend(log, full, horizon, retention, was, now, [], foreign);
      full' := full + foreign;
      assert CycleStep(before, full, a, now, after, full');
    } else {
      var snapshot := a.listing.value;
      var diff, foreign :|
        DiffOf(before, snapshot, now, diff) && Foreign(foreign) && batch == log + Written(a, diff, now) + foreign;
      EventsAtOnce(before, snapshot, now, diff);
      assert Keyed(before) by { KeyedWhenSourced(before, full); }
      SaveEventsFit(before, snapshot, now, diff);
      var events := EventsOf(diff, now);
      CutFromAppend(log, full, horizon, retention, was, now, events, foreign);
      full' := full + events + foreign;
      assert CycleStep(before, full, a, now, after, full');
    }
    CycleKeepsSourcedIff(before, full, a, now, after, full');
  }

  // The same with the retention that may follow.
  lemma WholeCycleCutFrom(before: Table, log: seq<Event>, a: Answers, was: int, now: int, cycle: nat, after: Table,
                          log': seq<Event>, full: seq<Event>, horizon: Option<int>, retention: int)
    returns (full': seq<Event>)
    requires Sourced(before, full) && CutFrom(log, full, horizon, retention, was) && was <= now && 0 <= retention
    requires DistinctListing(a) && a.eventsOk && CycleWithRetention(before, log, a, now, retention, cycle, after, log')
    ensures Sourced(after, full')
    ensures CutFrom(log', full', if Prunes(a, cycle) then Some(ToUnix(now - retention)) else horizon, retention, now)
  {
    var batch :|
      && CycleStep(before, log, a, now, after, batch)
      && log' == if Prunes(a, cycle) then RetainedEvents(batch, ToUnix(now - retention)) else batch;
    hide *;
    full' := CycleCutFrom(before, log, a, was, now, after, batch, full, horizon, retention);
    if Prunes(a, cycle) {
      CutFromRetained(batch, full', horizon, retention, now);
    }
  }

  lemma KeyedWhenSourced(table: Table, log: seq<Event>)
    requires Sourced(table, log)
    ensures Keyed(table)
  {
  }

  // The time of the last of the first n cycles, or of the first one to come.
  function LastTime(nows: seq<int>, n: nat): int
    requires n <= |nows|
  {
    if n > 0 then nows[n - 1] else if nows == [] then 0 else nows[0]
  }

  // Behind every log of a run there is a complete one that rebuilds the table truthfully, of which the
  // retention has left the events about tunnels since its last cutoff.
  lemma {:induction false} RunIsCutFrom(tables: seq<Table>, logs: seq<seq<Event>>, answers: seq<Answers>,
                                        nows: seq<int>, retention: int, n: nat)
    returns (full: seq<Event>)
    requires IsRun(tables, logs, answers, nows, retention) && Orderly(answers, nows, retention) && n <= |answers|
    ensures Sourced(tables[n], full)
    ensures CutFrom(logs[n], full, Horizon(answers, nows, retention, n), retention, LastTime(nows, n))
  {
    hide Sourced, CutFrom, CycleWithRetention, Prunes, ToUnix;
    if n == 0 {
      EmptyRun();
      full := [];
      NothingCut(retention, LastTime(nows, 0));
    } else {
      var before := RunIsCutFrom(tables, logs, answers, nows, retention, n - 1);
      var horizon := Horizon(answers, nows, retention, n - 1);
      full := WholeCycleCutFrom(tables[n - 1], logs[n - 1], answers[n - 1], LastTime(nows, n - 1), nows[n - 1], n,
                                tables[n], logs[n], before, horizon, retention);
    }
  }

  lemma EmptyRun()
    ensures Sourced(map[], [])
  {
  }

  lemma NothingCut(retention: int, now: int)
    ensures CutFrom([], [], None, retention, now)
  {
  }

  // Until the first retention the event log rebuilds the table truthfully. From then on it rebuilds it
  // if and only if it still holds an event about every stored tunnel.
  lemma RunIsSourced(tables: seq<Table>, logs: seq<seq<Event>>, answers: seq<Answers>, nows: seq<int>, retention: int,
                     n: nat)
    requires IsRun(tables, logs, answers, nows, retention) && Orderly(answers, nows, retention) && n <= |answers|
    ensures Horizon(answers, nows, retention, n).None? ==> Sourced(tables[n], logs[n])
    ensures Replay(map[], logs[n]) == StatesOf(tables[n]) <==> forall id :: id in tables[n] ==> Mentions(logs[n], id)
  {
    var full := RunIsCutFrom(tables, logs, answers, nows, retention, n);
    var horizon := Horizon(answers, nows, retention, n);
    var own, m := Concerning(full), StatesOf(tables[n]);
    ConcerningReplays(map[], full);
    ConcerningReplays(map[], logs[n]);
    var j := 0;
    if horizon.Some? {
      j := RetentionKeepsTail(own, horizon.value);
    }
    assert own[0..] == own;
    hide Replay, Concerning, RetainedEvents;
    TailReplaysIff(m, own, j);
  }
}
