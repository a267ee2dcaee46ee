// The poll cycle and the event log it writes.
module Collectors {
  import opened Clock
  import opened Events
  import opened StatusLog
  import opened Inventory
  import opened Stores
  import opened Retention

  const PRUNE_EVERY_CYCLES := 120

  // ---- diffs to events ----

  function AddedEvents(added: seq<Tunnel>, now: int): seq<Event> {
    seq(|added|, i requires 0 <= i < |added| => Event(now, TunnelAdded, added[i].id, "", "", added[i].status))
  }

  function RemovedEvents(removed: seq<Tunnel>, now: int): seq<Event> {
    seq(|removed|, i requires 0 <= i < |removed| => Event(now, TunnelRemoved, removed[i].id, "", removed[i].status, ""))
  }

  function StatusEvent(c: StatusChange): Event {
    Event(c.changedAt, TunnelStatus, c.tunnelID, "", c.fromStatus, c.status)
  }

  // A tunnel that is new in the diff has its status in the added event already.
  function StatusEvents(changes: seq<StatusChange>, added: set<string>): seq<Event> {
    if changes == [] then []
    else
      var c := changes[|changes| - 1];
      StatusEvents(changes[..|changes| - 1], added) + (if c.tunnelID in added then [] else [StatusEvent(c)])
  }

  function EventsOf(diff: TunnelDiff, now: int): seq<Event> {
    AddedEvents(diff.added, now) + RemovedEvents(diff.removed, now) + StatusEvents(diff.changes, Ids(diff.added))
  }

  // kept holds the changes of tunnels that are not new in the diff, as often as they occur.
  ghost predicate OldTunnels(kept: seq<StatusChange>, diff: TunnelDiff) {
    forall c :: multiset(kept)[c] == if c.tunnelID in Ids(diff.added) then 0 else multiset(diff.changes)[c]
  }

  predicate StatusEventPer(events: seq<Event>, from: nat, kept: seq<StatusChange>) {
    && |events| == from + |kept|
    && forall i :: 0 <= i < |kept| ==>
         events[from + i] == Event(kept[i].changedAt, TunnelStatus, kept[i].tunnelID, "", kept[i].fromStatus, kept[i].status)
  }

  // What a diff turns into: one event per added tunnel, then one per removed tunnel, then one per change
  // of a tunnel that was there before.
  ghost predicate TurnsInto(diff: TunnelDiff, now: int, events: seq<Event>) {
    var a, r := |diff.added|, |diff.removed|;
    && a + r <= |events|
    && (forall i :: 0 <= i < a ==> events[i] == Event(now, TunnelAdded, diff.added[i].id, "", "", diff.added[i].status))
    && (forall i :: a <= i < a + r ==>
          events[i] == Event(now, TunnelRemoved, diff.removed[i - a].id, "", diff.removed[i - a].status, ""))
    && exists kept :: OldTunnels(kept, diff) && StatusEventPer(events, a + r, kept)
  }

  lemma {:induction false} StatusEventsMean(changes: seq<StatusChange>, added: set<string>) returns (kept: seq<StatusChange>)
    ensures StatusEventPer(StatusEvents(changes, added), 0, kept)
    ensures forall c :: multiset(kept)[c] == if c.tunnelID in added then 0 else multiset(changes)[c]
  {
    kept := [];
    if changes != [] {
      var init, c := changes[..|changes| - 1], changes[|changes| - 1];
      kept := StatusEventsMean(init, added);
      assert changes == init + [c];
      var events := StatusEvents(init, added);
      assert StatusEvents(changes, added) == if c.tunnelID in added then events else events + [StatusEvent(c)] by {
        assert events + [] == events;
      }
      hide StatusEvents;
      if c.tunnelID !in added {
        kept := kept + [c];
      }
    }
  }

  lemma EventsMean(diff: TunnelDiff, now: int)
    ensures TurnsInto(diff, now, EventsOf(diff, now))
  {
    var kept := StatusEventsMean(diff.changes, Ids(diff.added));
    assert OldTunnels(kept, diff);
    hide StatusEvents, OldTunnels;
    assert StatusEventPer(EventsOf(diff, now), |diff.added| + |diff.removed|, kept);
  }

  method TunnelEvents(diff: TunnelDiff, now: int) returns (events: seq<Event>)
    ensures events == EventsOf(diff, now)
    ensures TurnsInto(diff, now, events)
  {
    EventsMean(diff, now);
    hide TurnsInto;
    events := [];
    var added: set<string> := {};
    for i := 0 to |diff.added|
      invariant events == AddedEvents(diff.added, now)[..i]
      invariant added == Ids(diff.added[..i])
    {
      assert diff.added[..i + 1] == diff.added[..i] + [diff.added[i]];
      added := added + {diff.added[i].id};
      events := events + [Event(now, TunnelAdded, diff.added[i].id, "", "", diff.added[i].status)];
    }
    assert diff.added[..|diff.added|] == diff.added;
    for i := 0 to |diff.removed|
      invariant events == AddedEvents(diff.added, now) + RemovedEvents(diff.removed, now)[..i]
    {
      events := events + [Event(now, TunnelRemoved, diff.removed[i].id, "", diff.removed[i].status, "")];
    }
    for i := 0 to |diff.changes|
      invariant events == AddedEvents(diff.added, now) + RemovedEvents(diff.removed, now)
        + StatusEvents(diff.changes[..i], added)
    {
      assert diff.changes[..i + 1][..i] == diff.changes[..i];
      if diff.changes[i].tunnelID in added {
        continue;
      }
      events := events + [StatusEvent(diff.changes[i])];
    }
    assert diff.changes[..|diff.changes|] == diff.changes;
  }

  // ---- the poll cycle ----

  // What syncing one tunnel brings: its events when it succeeds, and the ingress rules it fetched.
  datatype Sync = Sync(ok: bool, events: seq<Event>, ingress: Option<seq<IngressRule>>)

  // What the API and the database answer during one cycle: the listing, the save, every sync, the two
  // event writes and the retention.
  datatype Answers = Answers(listing: Option<seq<Tunnel>>, saveOk: bool, syncs: seq<Sync>,
                             eventsOk: bool, failureOk: bool, pruneOk: bool)

  // Connector and configuration events never speak about which tunnels exist.
  predicate Foreign(events: seq<Event>) {
    forall e :: e in events ==> !ConcernsTunnels(e.kind)
  }

  // A sync fetches the rules of its own tunnel.
  predicate OwnRules(snapshot: seq<Tunnel>, syncs: seq<Sync>)
    requires |syncs| == |snapshot|
  {
    forall i :: 0 <= i < |syncs| && syncs[i].ingress.Some? ==>
      forall r :: r in syncs[i].ingress.value ==> r.tunnelID == snapshot[i].id
  }

  // What a sync reports: its connectors and its configuration.
  predicate SyncKinds(events: seq<Event>) {
    forall e :: e in events ==>
      e.kind.ConnectorAdded? || e.kind.ConnectorRemoved? || e.kind.VersionDrift? || e.kind.ConfigChanged?
  }

  predicate WellFormed(a: Answers) {
    && (a.listing.Some? ==> |a.syncs| == |a.listing.value|)
    && (forall s :: s in a.syncs ==> SyncKinds(s.events))
    && (a.listing.Some? ==> OwnRules(a.listing.value, a.syncs))
  }

  // The listing arrives and is saved.
  predicate Saves(a: Answers) {
    a.listing.Some? && a.saveOk
  }

  // The events of the syncs that succeed, in order.
  function SyncEvents(syncs: seq<Sync>): seq<Event> {
    if syncs == [] then []
    else
      var sync := syncs[|syncs| - 1];
      SyncEvents(syncs[..|syncs| - 1]) + (if sync.ok then sync.events else [])
  }

  // The events are those of the syncs that succeed, and of no other.
  ghost predicate FromOkSyncs(events: seq<Event>, syncs: seq<Sync>) {
    && (forall e :: e in events <==> exists s :: s in syncs && s.ok && e in s.events)
    && |events| == OkLength(syncs)
  }

  // How many events the syncs that succeed bring.
  function OkLength(syncs: seq<Sync>): nat {
    if syncs == [] then 0
    else
      var s := syncs[0];
      if s.ok then |s.events| + OkLength(syncs[1..]) else OkLength(syncs[1..])
  }

  lemma {:induction false} OkLengthAppend(syncs: seq<Sync>, s: Sync)
    ensures OkLength(syncs + [s]) == OkLength(syncs) + (if s.ok then |s.events| else 0)
  {
    if syncs != [] {
      assert (syncs + [s])[1..] == syncs[1..] + [s];
      OkLengthAppend(syncs[1..], s);
    }
  }

  lemma {:induction false} SyncEventsMean(syncs: seq<Sync>)
    ensures FromOkSyncs(SyncEvents(syncs), syncs)
  {
    if syncs != [] {
      var init, s := syncs[..|syncs| - 1], syncs[|syncs| - 1];
      assert syncs == init + [s];
      SyncEventsMean(init);
      OkLengthAppend(init, s);
      hide OkLength;
    }
  }

  // Nothing went wrong in a cycle: the listing arrived, it was saved and every tunnel was synced.
  predicate NothingFailed(a: Answers) {
    a.listing.Some? && a.saveOk && forall s :: s in a.syncs ==> s.ok
  }

  // What a cycle appends to the event log: the batch of a saved listing, and an event of its own when
  // something failed.
  function Appended(a: Answers, diff: TunnelDiff, now: int): seq<Event> {
    (if a.listing.Some? && a.saveOk && a.eventsOk then EventsOf(diff, now) + SyncEvents(a.syncs) else [])
    + (if !NothingFailed(a) && a.failureOk then [Event(now, PollFailed, "", "", "", "")] else [])
  }

  // The events of a save that reach the log: a failing write loses the whole batch.
  function Written(a: Answers, diff: TunnelDiff, now: int): seq<Event> {
    if a.eventsOk then EventsOf(diff, now) else []
  }

  // A cycle over the tunnels table and the event log, before any retention. A failed listing or save
  // changes no table; a failed sync only loses that tunnel's own events.
  ghost predicate CycleStep(before: Table, log: seq<Event>, a: Answers, now: int, after: Table, log': seq<Event>) {
    if !Saves(a) then
      after == before && exists foreign :: Foreign(foreign) && log' == log + foreign
    else
      && after == SavedTunnels(before, a.listing.value, now)
      && exists diff, foreign ::
           DiffOf(before, a.listing.value, now, diff) && Foreign(foreign) && log' == log + Written(a, diff, now) + foreign
  }

  // Retention runs every PRUNE_EVERY_CYCLES-th cycle.
  predicate Prunes(a: Answers, cycle: nat) {
    cycle % PRUNE_EVERY_CYCLES == 0 && a.pruneOk
  }

  // A whole cycle: the batch it appends, then the retention when it is due.
  ghost predicate CycleWithRetention(before: Table, log: seq<Event>, a: Answers, now: int, retention: int, cycle: nat,
                                     after: Table, log': seq<Event>)
  {
    exists batch ::
      && CycleStep(before, log, a, now, after, batch)
      && log' == if Prunes(a, cycle) then RetainedEvents(batch, ToUnix(now - retention)) else batch
  }

  class Collector {
    const store: Store
    var eventLog: seq<Event>
    var cycles: nat
    var lastRun: int
    var lastSuccess: int
    const retention: int

    constructor (store: Store, retention: int)
      ensures this.store == store && this.retention == retention
      ensures eventLog == [] && cycles == 0
    {
      this.store, this.retention, eventLog, cycles, lastRun, lastSuccess := store, retention, [], 0, 0, 0;
    }

    // One poll: save the listing, turn the diff into events, sync every tunnel, write the batch.
    method Poll(now: int, a: Answers) returns (ok: bool, ghost diff: TunnelDiff)
      requires store.Valid() && WellFormed(a)
      modifies store, this`eventLog
      ensures store.Valid()
      ensures !Saves(a) ==> store.tunnels == old(store.tunnels) && store.history == old(store.history)
      ensures Saves(a) ==>
        && DiffOf(old(store.tunnels), a.listing.value, now, diff)
        && store.tunnels == SavedTunnels(old(store.tunnels), a.listing.value, now)
        && State(store.tunnels, store.history)
             == Save(State(old(store.tunnels), old(store.history)), Inventory.Poll(now, a.listing.value))
      ensures eventLog == old(eventLog)
        + (if Saves(a) && a.eventsOk then EventsOf(diff, now) + SyncEvents(a.syncs) else [])
      ensures old(NoOrphans(store.ingress, store.tunnels)) ==> NoOrphans(store.ingress, store.tunnels)
      ensures ok <==> a.listing.Some? && a.saveOk && forall s :: s in a.syncs ==> s.ok
    {
      if !Saves(a) {
        return false, TunnelDiff([], [], []);
      }
      hide EventsOf, SyncEvents, SavedTunnels, ChangesOf, RowsOf, Without, DiffOf, SaveFacts, NoOrphans, TurnsInto, FromOkSyncs, Save, OwnRules, Ids, Keyed;
      var snapshot := a.listing.value;
      var found := store.SaveTunnels(snapshot, now);
      diff := found;
      assert store.tunnels == SavedTunnels(old(store.tunnels), snapshot, now) by { SavedNow(old(store.tunnels), old(store.history), snapshot, now); }
      assert Ids(snapshot) <= store.tunnels.Keys by { SavedKeys(old(store.tunnels), snapshot, now); }
      var events := TunnelEvents(found, now);
      var own;
      own, ok := SyncAll(snapshot, a.syncs);
      if a.eventsOk {
        eventLog := eventLog + (events + own);
      }
    }

    // Syncs every tunnel of the snapshot; the events of a failed sync are dropped.
    method SyncAll(snapshot: seq<Tunnel>, syncs: seq<Sync>) returns (events: seq<Event>, ok: bool)
      requires store.Valid() && Ids(snapshot) <= store.tunnels.Keys
      requires |syncs| == |snapshot| && OwnRules(snapshot, syncs)
      modifies store`ingress
      ensures store.Valid() && events == SyncEvents(syncs) && FromOkSyncs(events, syncs)
      ensures ok <==> forall s :: s in syncs ==> s.ok
      ensures old(NoOrphans(store.ingress, store.tunnels)) ==> NoOrphans(store.ingress, store.tunnels)
    {
      events, ok := [], true;
      for i := 0 to |snapshot|
        invariant store.Valid() && events == SyncEvents(syncs[..i])
        invariant old(NoOrphans(store.ingress, store.tunnels)) ==> NoOrphans(store.ingress, store.tunnels)
        invariant ok <==> forall j :: 0 <= j < i ==> syncs[j].ok
      {
        var sync := syncs[i];
        assert syncs[..i + 1][..i] == syncs[..i];
        if sync.ingress.Some? {
          assert snapshot[i].id in Ids(snapshot);
          store.ReplaceIngress(snapshot[i].id, sync.ingress.value);
        }
        if !sync.ok {
          ok := false;
          continue;
        }
        events := events + sync.events;
      }
      assert syncs[..|snapshot|] == syncs;
      SyncEventsMean(syncs);
    }

    // A cycle and its bookkeeping: a failure leaves an event of its own, and now and then the tables
    // are cut back to the retention.
    method PollOnce(now: int, a: Answers) returns (ghost diff: TunnelDiff)
      requires store.Valid() && WellFormed(a)
      modifies store, this
      ensures store.Valid() && cycles == old(cycles) + 1 && lastRun == now
      ensures lastSuccess
        == if a.listing.Some? && a.saveOk && (forall s :: s in a.syncs ==> s.ok) then now else old(lastSuccess)
      ensures Saves(a) ==> DiffOf(old(store.tunnels), a.listing.value, now, diff)
      ensures var log := old(eventLog) + Appended(a, diff, now);
        eventLog == if cycles % 120 == 0 && a.pruneOk then RetainedEvents(log, ToUnix(now - retention)) else log
      ensures State(store.tunnels, store.history)
        == AfterCycle(State(old(store.tunnels), old(store.history)), a, now, retention, cycles)
      ensures CycleWithRetention(old(store.tunnels), old(eventLog), a, now, retention, cycles, store.tunnels, eventLog)
      ensures old(NoOrphans(store.ingress, store.tunnels)) ==> NoOrphans(store.ingress, store.tunnels)
    {
      hide CycleWithRetention, RetainedEvents, WellFormed, Retained, Save, DiffOf, EventsOf, SyncEvents;
      var ok;
      ok, diff := Poll(now, a);
      lastRun, cycles := now, cycles + 1;
      if ok {
        lastSuccess := now;
      } else if a.failureOk {
        eventLog := eventLog + [Event(now, PollFailed, "", "", "", "")];
      }
      assert eventLog == old(eventLog) + Appended(a, diff, now);
      AppendedIsAStep(old(store.tunnels), old(eventLog), a, now, diff, store.tunnels, retention, cycles);
      if cycles % PRUNE_EVERY_CYCLES == 0 && a.pruneOk {
        store.Prune(now - retention);
        PruneEvents(ToUnix(now - retention));
      }
    }

    // Polls until it is stopped, from an empty database on; tables and logs list what each cycle leaves.
    method Run(answers: seq<Answers>, nows: seq<int>) returns (ghost tables: seq<Table>, ghost logs: seq<seq<Event>>)
      requires store.Valid() && |nows| == |answers| && forall a :: a in answers ==> WellFormed(a)
      requires store.tunnels == map[] && store.history == [] && eventLog == [] && cycles == 0
      modifies store, this
      ensures IsRun(tables, logs, answers, nows, retention) && cycles == |answers|
      ensures tables[|answers|] == store.tunnels && logs[|answers|] == eventLog
      ensures State(store.tunnels, store.history) == RunSteps(StepsOf(answers, nows, retention, |answers|))
      ensures LastClean(answers, nows, lastSuccess) || (NeverClean(answers) && lastSuccess == old(lastSuccess))
    {
      tables, logs := [map[]], [[]];
      hide CycleWithRetention, RunSteps, AfterCycle, WellFormed, LastClean, NeverClean, IsRun, StepsOf;
      NothingYet(answers, nows, retention, lastSuccess);
      for i := 0 to |answers|
        invariant store.Valid() && cycles == i
        invariant IsRun(tables, logs, answers[..i], nows[..i], retention)
        invariant |tables| == |logs| == i + 1 && tables[i] == store.tunnels && logs[i] == eventLog
        invariant State(store.tunnels, store.history) == RunSteps(StepsOf(answers, nows, retention, i))
        invariant LastClean(answers[..i], nows[..i], lastSuccess)
          || (NeverClean(answers[..i]) && lastSuccess == old(lastSuccess))
      {
        var a := answers[i];
        ghost var before := State(store.tunnels, store.history);
        ghost var was := lastSuccess;
        ghost var diff := PollOnce(nows[i], a);
        StepsStep(before, answers, nows, retention, i);
        RunExtends(tables, logs, answers, nows, retention, i, store.tunnels, eventLog);
        CleanStep(answers, nows, i, was, lastSuccess, old(lastSuccess));
        tables, logs := tables + [store.tunnels], logs + [eventLog];
      }
      assert answers[..|answers|] == answers && nows[..|nows|] == nows;
      assert |tables| == |answers| + 1;
    }

    method PruneEvents(cutoff: int)
      modifies this`eventLog
      ensures eventLog == RetainedEvents(old(eventLog), cutoff)
      ensures forall e :: multiset(eventLog)[e] == if ToUnix(e.timestamp) < cutoff then 0 else multiset(old(eventLog))[e]
    {
      var kept: seq<Event> := [];
      for i := 0 to |eventLog|
        invariant eventLog == old(eventLog) && kept == RetainedEvents(eventLog[..i], cutoff)
      {
        assert eventLog[..i + 1][..i] == eventLog[..i];
        if cutoff <= ToUnix(eventLog[i].timestamp) {
          kept := kept + [eventLog[i]];
        }
      }
      assert eventLog[..|eventLog|] == eventLog;
      RetainedCount(eventLog, cutoff);
      hide RetainedEvents;
      eventLog := kept;
    }
  }

  // DELETE FROM events WHERE ts < cutoff
  function RetainedEvents(log: seq<Event>, cutoff: int): seq<Event> {
    if log == [] then []
    else
      var e := log[|log| - 1];
      RetainedEvents(log[..|log| - 1], cutoff) + (if cutoff <= ToUnix(e.timestamp) then [e] else [])
  }

  lemma SavedNow(before: Table, rows: seq<StatusRow>, snapshot: seq<Tunnel>, now: int)
    ensures Save(State(before, rows), Inventory.Poll(now, snapshot)).tunnels == SavedTunnels(before, snapshot, now)
  {
  }

  lemma SavedKeys(before: Table, snapshot: seq<Tunnel>, now: int)
    ensures SavedTunnels(before, snapshot, now).Keys == Ids(snapshot)
  {
  }

  // A retained event stays as often as it was written.
  lemma {:induction false} RetainedCount(log: seq<Event>, cutoff: int)
    ensures forall e :: multiset(RetainedEvents(log, cutoff))[e] == if ToUnix(e.timestamp) < cutoff then 0 else multiset(log)[e]
  {
    if log != [] {
      RetainedCount(log[..|log| - 1], cutoff);
      assert log == log[..|log| - 1] + [log[|log| - 1]];
      hide ToUnix;
    }
  }

  // Syncs never report a failed poll, and neither does a save.
  lemma {:induction false} SyncEventsKinds(syncs: seq<Sync>)
    requires forall s :: s in syncs ==> SyncKinds(s.events)
    ensures SyncKinds(SyncEvents(syncs))
  {
    if syncs != [] {
      assert syncs[|syncs| - 1] in syncs;
      SyncEventsKinds(syncs[..|syncs| - 1]);
    }
  }

  lemma {:induction false} StatusEventsKinds(changes: seq<StatusChange>, added: set<string>)
    ensures forall e :: e in StatusEvents(changes, added) ==> e.kind.TunnelStatus?
  {
    if changes != [] {
      StatusEventsKinds(changes[..|changes| - 1], added);
    }
  }

  // A cycle's failure event comes last, exactly when something failed and the write succeeds, and is
  // the only one of its kind.
  lemma FailureIsReported(a: Answers, diff: TunnelDiff, now: int)
    requires WellFormed(a)
    ensures var batch := Appended(a, diff, now);
      var failed := !(a.listing.Some? && a.saveOk && forall s :: s in a.syncs ==> s.ok);
      && ((exists e :: e in batch && e.kind.PollFailed?) <==> failed && a.failureOk)
      && (failed && a.failureOk ==> batch[|batch| - 1] == Event(now, PollFailed, "", "", "", ""))
      && forall i :: 0 <= i < |batch| - 1 ==> !batch[i].kind.PollFailed?
  {
    StatusEventsKinds(diff.changes, Ids(diff.added));
    SyncEventsKinds(a.syncs);
    var batch := Appended(a, diff, now);
    var saved := if a.listing.Some? && a.saveOk && a.eventsOk then EventsOf(diff, now) + SyncEvents(a.syncs) else [];
    assert forall e :: e in saved ==> !e.kind.PollFailed?;
    forall i | 0 <= i < |saved| ensures !batch[i].kind.PollFailed? {
      assert batch[i] == saved[i];
      assert saved[i] in saved;
    }
    if !NothingFailed(a) && a.failureOk {
      assert batch[|saved|] in batch;
    }
    hide EventsOf, SyncEvents;
  }

  // ---- whole runs ----

  // A run from an empty database: table and log after each cycle.
  ghost predicate IsRun(tables: seq<Table>, logs: seq<seq<Event>>, answers: seq<Answers>, nows: seq<int>,
                        retention: int) {
    && |tables| == |logs| == |answers| + 1 && |nows| == |answers|
    && tables[0] == map[] && logs[0] == []
    && forall n :: 0 <= n < |answers| ==>
         CycleWithRetention(tables[n], logs[n], answers[n], nows[n], retention, n + 1, tables[n + 1], logs[n + 1])
  }


  // The tables after a cycle.
  function AfterCycle(s: State, a: Answers, now: int, retention: int, cycle: nat): State {
    var saved := if Saves(a) then Save(s, Inventory.Poll(now, a.listing.value)) else s;
    if Prunes(a, cycle) then saved.(history := Retained(saved.history, ToUnix(now - retention))) else saved
  }

  // The polls and prunes of the first n cycles.
  function StepsOf(answers: seq<Answers>, nows: seq<int>, retention: int, n: nat): seq<Step>
    requires n <= |answers| == |nows|
  {
    if n == 0 then []
    else
      var a, now := answers[n - 1], nows[n - 1];
      StepsOf(answers, nows, retention, n - 1)
      + (if Saves(a) then [Polled(Inventory.Poll(now, a.listing.value))] else [])
      + (if Prunes(a, n) then [Pruned(ToUnix(now - retention))] else [])
  }

  lemma NothingYet(answers: seq<Answers>, nows: seq<int>, retention: int, t: int)
    requires |answers| == |nows|
    ensures answers[..0] == [] && nows[..0] == [] && RunSteps(StepsOf(answers, nows, retention, 0)) == State(map[], [])
    ensures IsRun([map[]], [[]], [], [], retention) && NeverClean([])
  {
  }

  lemma RunStepsAppend(steps: seq<Step>, step: Step)
    ensures step.Polled? ==> RunSteps(steps + [step]) == Save(RunSteps(steps), step.poll)
    ensures step.Pruned? ==>
      RunSteps(steps + [step]) == RunSteps(steps).(history := Retained(RunSteps(steps).history, step.cutoff))
  {
    assert (steps + [step])[..|steps|] == steps;
  }

  lemma StepsStep(s: State, answers: seq<Answers>, nows: seq<int>, retention: int, i: nat)
    requires i < |answers| == |nows| && s == RunSteps(StepsOf(answers, nows, retention, i))
    ensures AfterCycle(s, answers[i], nows[i], retention, i + 1) == RunSteps(StepsOf(answers, nows, retention, i + 1))
  {
    var a, now, steps := answers[i], nows[i], StepsOf(answers, nows, retention, i);
    hide RunSteps, Save, Retained;
    var polled := if Saves(a) then steps + [Polled(Inventory.Poll(now, a.listing.value))] else steps;
    if Saves(a) {
      RunStepsAppend(steps, Polled(Inventory.Poll(now, a.listing.value)));
    }
    if Prunes(a, i + 1) {
      RunStepsAppend(polled, Pruned(ToUnix(now - retention)));
    }
    assert steps + [] + [] == steps && polled + [] == polled;
  }

  lemma RunExtends(tables: seq<Table>, logs: seq<seq<Event>>, answers: seq<Answers>, nows: seq<int>, retention: int,
                   i: nat, table: Table, log: seq<Event>)
    requires i < |answers| == |nows| && IsRun(tables, logs, answers[..i], nows[..i], retention)
    requires CycleWithRetention(tables[i], logs[i], answers[i], nows[i], retention, i + 1, table, log)
    ensures IsRun(tables + [table], logs + [log], answers[..i + 1], nows[..i + 1], retention)
    ensures |tables| == |logs| == i + 1
  {
    hide CycleWithRetention;
  }

  // The time of the last cycle in which nothing failed.
  ghost predicate LastClean(answers: seq<Answers>, nows: seq<int>, t: int)
    requires |answers| == |nows|
  {
    exists n :: 0 <= n < |answers| && NothingFailed(answers[n]) && t == nows[n]
      && forall m :: n < m < |answers| ==> !NothingFailed(answers[m])
  }

  ghost predicate NeverClean(answers: seq<Answers>) {
    forall n :: 0 <= n < |answers| ==> !NothingFailed(answers[n])
  }

  lemma CleanStep(answers: seq<Answers>, nows: seq<int>, i: nat, was: int, t: int, start: int)
    requires i < |answers| == |nows|
    requires LastClean(answers[..i], nows[..i], was) || (NeverClean(answers[..i]) && was == start)
    requires t == if NothingFailed(answers[i]) then nows[i] else was
    ensures LastClean(answers[..i + 1], nows[..i + 1], t) || (NeverClean(answers[..i + 1]) && t == start)
  {
    hide NothingFailed;
    var before, now := answers[..i], answers[..i + 1];
    assert now[i] == answers[i] && nows[..i + 1][i] == nows[i];
    if LastClean(before, nows[..i], was) && !NothingFailed(answers[i]) {
      var n :| 0 <= n < |before| && NothingFailed(before[n]) && was == nows[..i][n]
        && forall m :: n < m < |before| ==> !NothingFailed(before[m]);
      assert now[n] == before[n] && nows[..i + 1][n] == nows[..i][n];
      forall m | n < m < |now| ensures !NothingFailed(now[m]) {
        assert m < |before| ==> now[m] == before[m];
      }
    }
  }

  // What a cycle appends makes a step of a run.
  lemma AppendedIsAStep(before: Table, log: seq<Event>, a: Answers, now: int, diff: TunnelDiff, after: Table,
                        retention: int, cycle: nat)
    requires WellFormed(a)
    requires if Saves(a) then DiffOf(before, a.listing.value, now, diff) && after == SavedTunnels(before, a.listing.value, now)
             else after == before
    ensures var batch := log + Appended(a, diff, now);
      var log' := if Prunes(a, cycle) then RetainedEvents(batch, ToUnix(now - retention)) else batch;
      CycleWithRetention(before, log, a, now, retention, cycle, after, log')
  {
    var events := if Saves(a) then Written(a, diff, now) else [];
    var foreign := Foreigners(a, now);
    var batch := log + Appended(a, diff, now);
    hide SavedTunnels, DiffOf, EventsOf, SyncEvents, RetainedEvents;
    assert log + Appended(a, diff, now) == log + events + foreign by {
      AppendedSplits(a, diff, now);
      Reassociate(log, events, foreign);
    }
    hide Appended, Foreigners, Written, WellFormed;
    if Saves(a) {
      assert CycleStep(before, log, a, now, after, batch);
    } else {
      assert log + [] == log;
    }
    CycleClosed(before, log, a, now, retention, cycle, after, batch);
  }

  lemma CycleClosed(before: Table, log: seq<Event>, a: Answers, now: int, retention: int, cycle: nat, after: Table,
                    batch: seq<Event>)
    requires CycleStep(before, log, a, now, after, batch)
    ensures var log' := if Prunes(a, cycle) then RetainedEvents(batch, ToUnix(now - retention)) else batch;
      CycleWithRetention(before, log, a, now, retention, cycle, after, log')
  {
    hide CycleStep;
  }

  // The events of a cycle that say nothing about which tunnels exist.
  function Foreigners(a: Answers, now: int): (foreign: seq<Event>)
    requires WellFormed(a)
    ensures Foreign(foreign)
  {
    SyncEventsKinds(a.syncs);
    (if Saves(a) && a.eventsOk then SyncEvents(a.syncs) else [])
    + (if !NothingFailed(a) && a.failureOk then [Event(now, PollFailed, "", "", "", "")] else [])
  }

  lemma AppendedSplits(a: Answers, diff: TunnelDiff, now: int)
    requires WellFormed(a)
    ensures Appended(a, diff, now) == (if Saves(a) then Written(a, diff, now) else []) + Foreigners(a, now)
  {
    hide EventsOf, SyncEvents, WellFormed;
  }

  lemma Reassociate(a: seq<Event>, b: seq<Event>, c: seq<Event>)
    ensures a + (b + c) == a + b + c
  {
  }
}
