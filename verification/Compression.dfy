// Keeping one row per transition loses nothing that one row per poll would say.
module Compression {
  import opened Clock
  import opened StatusLog
  import opened UptimeSpec
  import opened Inventory

  function Run(polls: seq<Poll>): State {
    if polls == [] then State(map[], [])
    else Save(Run(polls[..|polls| - 1]), polls[|polls| - 1])
  }

  // The log with one row per poll that listed the tunnel.
  function PollLog(polls: seq<Poll>, id: string): seq<StatusChange> {
    if polls == [] then []
    else
      var p := polls[|polls| - 1];
      PollLog(polls[..|polls| - 1], id) +
      (if id in Ids(p.snapshot) then [Observation(p, id)] else [])
  }

  function Observation(p: Poll, id: string): StatusChange
    requires id in Ids(p.snapshot)
  {
    StatusChange(id, "", LastOf(p.snapshot, id).status, FromUnix(ToUnix(p.now)))
  }

  predicate NonDecreasing(polls: seq<Poll>) {
    forall i, j :: 0 <= i < j < |polls| ==> polls[i].now <= polls[j].now
  }

  // No tunnel shows up with a new status and then, later in the same snapshot, with its stored one.
  ghost predicate Settled(prev: Table, snapshot: seq<Tunnel>) {
    forall t :: t in snapshot && t.id in prev && LastOf(snapshot, t.id).status == prev[t.id].status
      ==> t.status == prev[t.id].status
  }

  ghost predicate SettledRun(polls: seq<Poll>) {
    forall n :: 0 <= n < |polls| ==> Settled(Run(polls[..n]).tunnels, polls[n].snapshot)
  }

  // The last logged status of every listed tunnel is the stored one.
  ghost predicate Consistent(s: State) {
    forall id :: id in s.tunnels ==>
      var log := Log(s.history, id);
      log != [] && log[|log| - 1].status == s.tunnels[id].status
  }

  predicate NotAfter(rows: seq<StatusRow>, second: int) {
    forall r :: r in rows ==> r.changedAt <= second
  }

  // ---- appending a batch of rows that carry one and the same second ----

  // The part of a change list that concerns one tunnel, as it is read back.
  function Own(changes: seq<StatusChange>, id: string): seq<StatusChange> {
    if changes == [] then []
    else
      var c := changes[|changes| - 1];
      Own(changes[..|changes| - 1], id) + (if c.tunnelID == id then [Read(RowOf(c))] else [])
  }

  lemma LogAppend(rows: seq<StatusRow>, r: StatusRow, id: string)
    requires NotAfter(rows, r.changedAt)
    ensures Log(rows + [r], id) == if r.tunnelID == id then Log(rows, id) + [Read(r)] else Log(rows, id)
  {
    assert (rows + [r])[..|rows|] == rows;
    SelectSorts(rows, id, Any);
    var log := Log(rows, id);
    if log != [] {
      assert log[|log| - 1] in log;
    }
  }

  lemma {:induction false} LogExtend(rows: seq<StatusRow>, changes: seq<StatusChange>, id: string, now: int)
    requires NotAfter(rows, ToUnix(now))
    requires forall c :: c in changes ==> c.changedAt == now
    ensures Log(rows + RowsOf(changes), id) == Log(rows, id) + Own(changes, id)
    ensures NotAfter(rows + RowsOf(changes), ToUnix(now))
  {
    if changes == [] {
      assert rows + RowsOf(changes) == rows;
    } else {
      var init, c := changes[..|changes| - 1], changes[|changes| - 1];
      LogExtend(rows, init, id, now);
      LogAppend(rows + RowsOf(init), RowOf(c), id);
      assert rows + RowsOf(changes) == rows + RowsOf(init) + [RowOf(c)];
    }
  }

  // What a snapshot appends for one tunnel.
  function OwnRows(prev: Table, snapshot: seq<Tunnel>, id: string, now: int): seq<StatusChange> {
    if snapshot == [] then []
    else
      var t := snapshot[|snapshot| - 1];
      OwnRows(prev, snapshot[..|snapshot| - 1], id, now) +
      (if t.id == id && Moved(prev, t) then [Read(RowOf(ChangeOf(prev, t, now)))] else [])
  }

  lemma OwnAppend(changes: seq<StatusChange>, c: StatusChange, id: string)
    ensures Own(changes + [c], id) == Own(changes, id) + (if c.tunnelID == id then [Read(RowOf(c))] else [])
  {
    assert (changes + [c])[..|changes|] == changes;
  }

  lemma {:induction false} OwnIsOwnRows(prev: Table, snapshot: seq<Tunnel>, id: string, now: int)
    ensures Own(ChangesOf(prev, snapshot, now), id) == OwnRows(prev, snapshot, id, now)
    ensures forall c :: c in ChangesOf(prev, snapshot, now) ==> c.changedAt == now
  {
    if snapshot != [] {
      var init, t := snapshot[..|snapshot| - 1], snapshot[|snapshot| - 1];
      OwnIsOwnRows(prev, init, id, now);
      assert ChangesOf(prev, snapshot, now)
        == ChangesOf(prev, init, now) + (if Moved(prev, t) then [ChangeOf(prev, t, now)] else []);
      assert OwnRows(prev, snapshot, id, now) == OwnRows(prev, init, id, now)
        + (if t.id == id && Moved(prev, t) then [Read(RowOf(ChangeOf(prev, t, now)))] else []);
      hide Own, OwnRows, ChangesOf;
      if Moved(prev, t) {
        OwnAppend(ChangesOf(prev, init, now), ChangeOf(prev, t, now), id);
      } else {
        assert ChangesOf(prev, snapshot, now) == ChangesOf(prev, init, now);
      }
    }
  }

  ghost predicate MovedTo(prev: Table, snapshot: seq<Tunnel>, id: string, status: string) {
    exists t :: t in snapshot && t.id == id && Moved(prev, t) && t.status == status
  }

  lemma {:induction false} OwnTimes(prev: Table, snapshot: seq<Tunnel>, id: string, now: int)
    ensures forall c :: c in OwnRows(prev, snapshot, id, now) ==> c.changedAt == FromUnix(ToUnix(now))
    ensures OwnRows(prev, snapshot, id, now) == [] ==> forall t :: t in snapshot && t.id == id ==> !Moved(prev, t)
  {
    if snapshot != [] {
      OwnTimes(prev, snapshot[..|snapshot| - 1], id, now);
      assert snapshot == snapshot[..|snapshot| - 1] + [snapshot[|snapshot| - 1]];
    }
  }

  // The appended rows end with the last occurrence that differs from the stored status.
  lemma {:induction false} OwnEnds(prev: Table, snapshot: seq<Tunnel>, id: string, now: int)
    ensures var own := OwnRows(prev, snapshot, id, now);
      && (own != [] ==> MovedTo(prev, snapshot, id, own[|own| - 1].status))
      && (id in Ids(snapshot) && Moved(prev, LastOf(snapshot, id)) ==>
            own != [] && own[|own| - 1].status == LastOf(snapshot, id).status)
  {
    if snapshot != [] {
      var init, t := snapshot[..|snapshot| - 1], snapshot[|snapshot| - 1];
      OwnEnds(prev, init, id, now);
      assert snapshot == init + [t];
      assert OwnRows(prev, snapshot, id, now) == OwnRows(prev, init, id, now)
        + (if t.id == id && Moved(prev, t) then [Read(RowOf(ChangeOf(prev, t, now)))] else []);
      assert id in Ids(snapshot) ==> id == t.id || id in Ids(init);
      hide OwnRows;
      var own := OwnRows(prev, init, id, now);
      if t.id == id && Moved(prev, t) {
        assert MovedTo(prev, snapshot, id, t.status);
      } else if own != [] {
        assert OwnRows(prev, snapshot, id, now) == own;
        var u :| u in init && u.id == id && Moved(prev, u) && u.status == own[|own| - 1].status;
        assert u in snapshot;
      }
    }
  }

  // Rows of one instant at the end of a log decide the status from that instant on and not before.
  lemma {:induction false} StatusAfter(log: seq<StatusChange>, own: seq<StatusChange>, at: int, t: int)
    requires Sorted(log) && (forall c :: c in log ==> c.changedAt <= at)
    requires forall c :: c in own ==> c.changedAt == at
    ensures Sorted(log + own)
    ensures StatusOf(log + own, t) ==
      if t < at || own == [] then StatusOf(log, t) else Some(own[|own| - 1].status)
    ensures at <= t ==> StatusOf(log, t) == if log == [] then None else Some(log[|log| - 1].status)
  {
    forall i | 0 <= i < |own| ensures own[i].changedAt == at { assert own[i] in own; }
    forall i | 0 <= i < |log| ensures log[i].changedAt <= at { assert log[i] in log; }
    if own == [] {
      assert log + own == log;
    }
    if t < at {
      CountSplits(log, t);
      CountIs(log + own, t, Count(log, t));
    } else {
      CountIs(log + own, t, |log + own|);
      CountIs(log, t, |log|);
    }
  }

  // ---- the exact condition under which one save keeps log and table in step ----

  lemma SaveIsConsistentIff(s: State, p: Poll)
    requires Keyed(s.tunnels) && Consistent(s) && NotAfter(s.history, ToUnix(p.now))
    ensures Consistent(Save(s, p)) <==> Settled(s.tunnels, p.snapshot)
  {
    forall id | id in Ids(p.snapshot)
      ensures var log := Log(Save(s, p).history, id);
        (log != [] && log[|log| - 1].status == Save(s, p).tunnels[id].status)
        <==> (id !in s.tunnels || LastOf(p.snapshot, id).status != s.tunnels[id].status
              || forall t :: t in p.snapshot && t.id == id ==> t.status == s.tunnels[id].status)
    {
      OneTunnelSaved(s, p, id);
    }
    if Consistent(Save(s, p)) {
      forall t | t in p.snapshot && t.id in s.tunnels && LastOf(p.snapshot, t.id).status == s.tunnels[t.id].status
        ensures t.status == s.tunnels[t.id].status
      {
        assert t.id in Save(s, p).tunnels;
      }
    }
  }

  lemma OneTunnelSaved(s: State, p: Poll, id: string)
    requires Keyed(s.tunnels) && Consistent(s) && NotAfter(s.history, ToUnix(p.now)) && id in Ids(p.snapshot)
    ensures var log := Log(Save(s, p).history, id);
      (log != [] && log[|log| - 1].status == Save(s, p).tunnels[id].status)
      <==> (id !in s.tunnels || LastOf(p.snapshot, id).status != s.tunnels[id].status
            || forall t :: t in p.snapshot && t.id == id ==> t.status == s.tunnels[id].status)
  {
    hide Select, Log, ChangesOf, RowsOf, Own, OwnRows;
    var changes := ChangesOf(s.tunnels, p.snapshot, p.now);
    OwnIsOwnRows(s.tunnels, p.snapshot, id, p.now);
    OwnTimes(s.tunnels, p.snapshot, id, p.now);
    OwnEnds(s.tunnels, p.snapshot, id, p.now);
    LogExtend(s.history, changes, id, p.now);
    LastOfIsMember(p.snapshot, id);
    var last := LastOf(p.snapshot, id);
    assert Save(s, p).tunnels[id].status == last.status;
    assert Log(Save(s, p).history, id) == Log(s.history, id) + Own(changes, id);
    hide Save, SavedTunnels, LastOf, NotAfter;
    var own := Own(changes, id);
    if own != [] {
      var t :| t in p.snapshot && t.id == id && Moved(s.tunnels, t) && t.status == own[|own| - 1].status;
    } else {
      assert !Moved(s.tunnels, last);
    }
  }

  lemma DistinctIsSettled(prev: Table, snapshot: seq<Tunnel>)
    requires Distinct(snapshot)
    ensures Settled(prev, snapshot)
  {
    forall t | t in snapshot && t.id in prev && LastOf(snapshot, t.id).status == prev[t.id].status
      ensures t.status == prev[t.id].status
    {
      LastOfIsMember(snapshot, t.id);
    }
  }

  // Listings without repeated ids are always settled.
  lemma DistinctRunIsSettled(polls: seq<Poll>)
    requires forall n :: 0 <= n < |polls| ==> Distinct(polls[n].snapshot)
    ensures SettledRun(polls)
  {
    forall n | 0 <= n < |polls| ensures Settled(Run(polls[..n]).tunnels, polls[n].snapshot) {
      DistinctIsSettled(Run(polls[..n]).tunnels, polls[n].snapshot);
    }
  }

  // ---- whole runs ----

  lemma {:induction false} RunInvariant(polls: seq<Poll>)
    requires NonDecreasing(polls) && SettledRun(polls)
    ensures Keyed(Run(polls).tunnels) && Consistent(Run(polls))
    ensures polls != [] ==> NotAfter(Run(polls).history, ToUnix(polls[|polls| - 1].now))
    ensures polls == [] ==> Run(polls).history == []
  {
    if polls != [] {
      var init, p := polls[..|polls| - 1], polls[|polls| - 1];
      RunPrefix(polls);
      RunInvariant(init);
      var s := Run(init);
      StillNotAfter(init, p);
      assert Settled(s.tunnels, p.snapshot) by { assert polls[..|polls| - 1] == init; }
      SaveIsConsistentIff(s, p);
      OwnIsOwnRows(s.tunnels, p.snapshot, "", p.now);
      LogExtend(s.history, ChangesOf(s.tunnels, p.snapshot, p.now), "", p.now);
      forall id | id in Ids(p.snapshot) ensures LastOf(p.snapshot, id).id == id {
        LastOfIsMember(p.snapshot, id);
      }
    }
  }

  // The poll with which the current unbroken stretch of listings of a tunnel began.
  ghost predicate StretchStart(polls: seq<Poll>, id: string, k: nat) {
    && k < |polls|
    && (forall j :: k <= j < |polls| ==> id in Ids(polls[j].snapshot))
    && (k > 0 ==> id !in Ids(polls[k - 1].snapshot))
  }

  lemma StretchGrows(init: seq<Poll>, p: Poll, id: string, k: nat)
    requires StretchStart(init, id, k) && id in Ids(p.snapshot)
    ensures StretchStart(init + [p], id, k)
  {
    hide Ids;
  }

  // The stored rows are the tunnels of the last poll: last seen at its second, and first seen at that
  // of the poll that began the stretch.
  lemma {:induction false} SeenOverRun(polls: seq<Poll>, id: string) returns (k: nat)
    requires id in Run(polls).tunnels
    ensures polls != [] && id in Ids(polls[|polls| - 1].snapshot) && StretchStart(polls, id, k)
    ensures var row := Run(polls).tunnels[id];
      row.firstSeen == SecondOf(polls[k].now) && row.lastSeen == SecondOf(polls[|polls| - 1].now)
  {
    var init, p := polls[..|polls| - 1], polls[|polls| - 1];
    SavedRow(Run(init).tunnels, p.snapshot, p.now, id);
    assert Run(polls).tunnels == SavedTunnels(Run(init).tunnels, p.snapshot, p.now);
    if id in Run(init).tunnels {
      k := SeenOverRun(init, id);
      StretchGrows(init, p, id, k);
      assert polls == init + [p];
    } else {
      k := |init|;
      if init != [] {
        assert id !in Ids(init[|init| - 1].snapshot);
      }
    }
  }

  lemma RunPrefix(polls: seq<Poll>)
    requires polls != [] && NonDecreasing(polls) && SettledRun(polls)
    ensures NonDecreasing(polls[..|polls| - 1]) && SettledRun(polls[..|polls| - 1])
  {
    var init := polls[..|polls| - 1];
    forall n | 0 <= n < |init| ensures Settled(Run(init[..n]).tunnels, init[n].snapshot) {
      assert init[..n] == polls[..n];
    }
  }

  lemma StillNotAfter(init: seq<Poll>, p: Poll)
    requires NonDecreasing(init + [p])
    requires init != [] ==> NotAfter(Run(init).history, ToUnix(init[|init| - 1].now))
    requires init == [] ==> Run(init).history == []
    ensures NotAfter(Run(init).history, ToUnix(p.now))
  {
    if init != [] {
      assert (init + [p])[|init| - 1].now <= (init + [p])[|init|].now;
      FloorMonotone(init[|init| - 1].now, p.now);
    }
  }

  lemma {:induction false} PollLogSorted(polls: seq<Poll>, id: string)
    requires NonDecreasing(polls)
    ensures Sorted(PollLog(polls, id))
    ensures polls != [] ==>
      forall c :: c in PollLog(polls, id) ==> c.changedAt <= FromUnix(ToUnix(polls[|polls| - 1].now))
  {
    if polls != [] {
      var init := polls[..|polls| - 1];
      PollLogSorted(init, id);
      if init != [] {
        FloorMonotone(init[|init| - 1].now, polls[|polls| - 1].now);
      }
      forall i | 0 <= i < |PollLog(init, id)|
        ensures PollLog(init, id)[i].changedAt <= FromUnix(ToUnix(polls[|polls| - 1].now))
      {
        assert PollLog(init, id)[i] in PollLog(init, id);
      }
    }
  }

  // The transition-only log means what the full list of polls means, at every instant.
  lemma {:induction false} CompressionPreservesStatus(polls: seq<Poll>, id: string, t: int)
    requires NonDecreasing(polls) && SettledRun(polls)
    ensures StatusOf(Log(Run(polls).history, id), t) == StatusOf(PollLog(polls, id), t)
  {
    if polls != [] {
      var init, p := polls[..|polls| - 1], polls[|polls| - 1];
      assert polls == init + [p];
      RunPrefix(polls);
      CompressionPreservesStatus(init, id, t);
      RunInvariant(init);
      StillNotAfter(init, p);
      PollLogSorted(init, id);
      PollLogSorted(polls, id);
      assert Settled(Run(init).tunnels, p.snapshot) by { assert polls[..|polls| - 1] == init; }
      forall c | c in PollLog(init, id) ensures c.changedAt <= FromUnix(ToUnix(p.now)) {
        assert c in PollLog(polls, id);
      }
      StepAgrees(Run(init), p, id, PollLog(init, id), t);
    }
  }

  // One more poll, on top of two logs that agree so far.
  lemma StepAgrees(s: State, p: Poll, id: string, full: seq<StatusChange>, t: int)
    requires Keyed(s.tunnels) && Consistent(s) && NotAfter(s.history, ToUnix(p.now))
    requires Settled(s.tunnels, p.snapshot)
    requires Sorted(full) && (forall c :: c in full ==> c.changedAt <= FromUnix(ToUnix(p.now)))
    requires StatusOf(Log(s.history, id), t) == StatusOf(full, t)
    ensures StatusOf(Log(Save(s, p).history, id), t)
      == StatusOf(full + (if id in Ids(p.snapshot) then [Observation(p, id)] else []), t)
  {
    hide Select, Log, ChangesOf, RowsOf, Own, OwnRows, StatusOf;
    var at, changes := FromUnix(ToUnix(p.now)), ChangesOf(s.tunnels, p.snapshot, p.now);
    var log, own := Log(s.history, id), Own(changes, id);
    OwnIsOwnRows(s.tunnels, p.snapshot, id, p.now);
    OwnTimes(s.tunnels, p.snapshot, id, p.now);
    OwnEnds(s.tunnels, p.snapshot, id, p.now);
    LogExtend(s.history, changes, id, p.now);
    LogNotAfter(s.history, id, ToUnix(p.now));
    StatusAfter(log, own, at, t);
    if id in Ids(p.snapshot) {
      StatusAfter(full, [Observation(p, id)], at, t);
      LastOfIsMember(p.snapshot, id);
    } else {
      assert full + [] == full;
    }
  }

  lemma LogNotAfter(rows: seq<StatusRow>, id: string, second: int)
    requires NotAfter(rows, second)
    ensures Sorted(Log(rows, id)) && forall c :: c in Log(rows, id) ==> c.changedAt <= FromUnix(second)
  {
    SelectSorts(rows, id, Any);
  }

  // StatusAt answers with the status in the last snapshot, at or before t's second, that listed the
  // tunnel; a tunnel that has vanished keeps its last status.
  lemma StatusAtIsLastListing(polls: seq<Poll>, id: string, t: int)
    requires NonDecreasing(polls) && SettledRun(polls)
    ensures var status := StatusOf(Log(Run(polls).history, id), t);
      && (status.Some? ==> Listed(polls, id, t, status.value))
      && (status.None? ==>
            forall n :: 0 <= n < |polls| && id in Ids(polls[n].snapshot) ==> ToUnix(t) < ToUnix(polls[n].now))
  {
    CompressionPreservesStatus(polls, id, t);
    PollLogMeans(polls, id, t);
  }

  // Uptime over the transition-only log reports the window and ratio that one row per poll would.
  lemma CompressionPreservesUptime(polls: seq<Poll>, id: string, window: int, now: int)
    requires NonDecreasing(polls) && SettledRun(polls)
    ensures UptimeOf(Log(Run(polls).history, id), window, now).(changes := 0)
      == UptimeOf(PollLog(polls, id), window, now).(changes := 0)
  {
    var log := Log(Run(polls).history, id);
    SelectSorts(Run(polls).history, id, Any);
    assert Sorted(log);
    hide UptimeOf, Log, Select;
    forall t ensures StatusOf(Log(Run(polls).history, id), t) == StatusOf(PollLog(polls, id), t) {
      CompressionPreservesStatus(polls, id, t);
    }
    PollLogSorted(polls, id);
    SameMeaningSameUptime(Log(Run(polls).history, id), PollLog(polls, id), window, now);
  }

  // A snapshot that lists a tunnel with a new status and then again with its stored one: the history
  // says the new status, the table and the last listing the stored one.
  lemma UnsettledMisleads(up: Tunnel, down: Tunnel, now: int)
    requires up.id == down.id && up.status != down.status
    ensures var polls := [Poll(now, [up]), Poll(now, [down, up])];
      && NonDecreasing(polls) && !SettledRun(polls) && !Consistent(Run(polls))
      && StatusOf(PollLog(polls, up.id), now) == Some(up.status)
      && StatusOf(Log(Run(polls).history, up.id), now) != Some(up.status)
  {
    var id, first, second := up.id, Poll(now, [up]), Poll(now, [down, up]);
    var polls, s := [first, second], Run([first]);
    OnePollRun(up, now);
    TwiceListed(up, down);
    NotSettled(s.tunnels, up, down);
    TwoPollRun(first, second);
    hide Run, Log, Select, PollLog, LastOf, Save, StatusOf, Consistent, Settled, Keyed, NotAfter;
    SaveIsConsistentIff(s, second);
    LastIsInEffect(s, second, id);
    PollLogStep([first], second, id, now);
    assert !Settled(Run(polls[..1]).tunnels, polls[1].snapshot);
  }

  lemma TwoPollRun(first: Poll, second: Poll)
    ensures [first, second] == [first] + [second] && [first, second][..1] == [first]
    ensures Run([first, second]) == Save(Run([first]), second)
  {
    assert [first, second][..1] == [first];
  }

  lemma OnePollRun(up: Tunnel, now: int)
    ensures var s := Run([Poll(now, [up])]);
      && Keyed(s.tunnels) && Consistent(s) && NotAfter(s.history, ToUnix(now))
      && up.id in s.tunnels && s.tunnels[up.id].status == up.status
  {
    var polls := [Poll(now, [up])];
    assert polls[..0] == [];
    RunInvariant(polls);
    assert [up][0] in [up];
    assert Run(polls).tunnels == SavedTunnels(map[], [up], now);
  }

  lemma NotSettled(prev: Table, up: Tunnel, down: Tunnel)
    requires up.id == down.id && up.status != down.status && up.id in prev && prev[up.id].status == up.status
    ensures !Settled(prev, [down, up])
  {
    TwiceListed(up, down);
  }

  lemma TwiceListed(up: Tunnel, down: Tunnel)
    requires up.id == down.id
    ensures up in [down, up] && down in [down, up] && LastOf([down, up], up.id) == up
  {
    assert [down, up][0] == down && [down, up][1] == up;
  }

  // Directly after a save, the status in effect is that of the log's last row.
  lemma LastIsInEffect(s: State, p: Poll, id: string)
    requires Keyed(s.tunnels) && Consistent(s) && NotAfter(s.history, ToUnix(p.now)) && id in Ids(p.snapshot)
    ensures StatusOf(Log(Save(s, p).history, id), p.now) == Some(LastOf(p.snapshot, id).status)
      <==> (id !in s.tunnels || LastOf(p.snapshot, id).status != s.tunnels[id].status
            || forall t :: t in p.snapshot && t.id == id ==> t.status == s.tunnels[id].status)
  {
    OneTunnelSaved(s, p, id);
    var changes, at := ChangesOf(s.tunnels, p.snapshot, p.now), FromUnix(ToUnix(p.now));
    OwnIsOwnRows(s.tunnels, p.snapshot, id, p.now);
    LastOfIsMember(p.snapshot, id);
    assert Save(s, p).tunnels[id].status == LastOf(p.snapshot, id).status;
    hide Select, Log, ChangesOf, RowsOf, Own, OwnRows, StatusOf;
    LogExtend(s.history, changes, id, p.now);
    LogNotAfter(Save(s, p).history, id, ToUnix(p.now));
    StatusAfter(Log(Save(s, p).history, id), [], at, p.now);
  }

  // The poll log itself says: the status in the last snapshot, at or before t's second, that listed the tunnel.
  lemma {:induction false} PollLogMeans(polls: seq<Poll>, id: string, t: int)
    requires NonDecreasing(polls)
    ensures StatusOf(PollLog(polls, id), t).None? ==>
      forall n :: 0 <= n < |polls| && id in Ids(polls[n].snapshot) ==> ToUnix(t) < ToUnix(polls[n].now)
    ensures StatusOf(PollLog(polls, id), t).Some? ==>
      Listed(polls, id, t, StatusOf(PollLog(polls, id), t).value)
  {
    if polls != [] {
      var init, p := polls[..|polls| - 1], polls[|polls| - 1];
      assert polls == init + [p];
      PollLogMeans(init, id, t);
      PollLogStep(init, p, id, t);
      hide PollLog, StatusOf, LastOf;
      if id in Ids(p.snapshot) && ToUnix(p.now) <= ToUnix(t) {
        assert LastListing(polls, |polls| - 1, id, t);
      } else if StatusOf(PollLog(init, id), t).Some? {
        ListingKept(init, p, id, t, StatusOf(PollLog(init, id), t).value);
      }
    }
  }

  ghost predicate Listed(polls: seq<Poll>, id: string, t: int, status: string) {
    exists n :: 0 <= n < |polls| && LastListing(polls, n, id, t) && LastOf(polls[n].snapshot, id).status == status
  }

  lemma ListingKept(init: seq<Poll>, p: Poll, id: string, t: int, status: string)
    requires Listed(init, id, t, status)
    requires id in Ids(p.snapshot) ==> ToUnix(t) < ToUnix(p.now)
    ensures Listed(init + [p], id, t, status)
  {
    var polls := init + [p];
    var n :| 0 <= n < |init| && LastListing(init, n, id, t) && LastOf(init[n].snapshot, id).status == status;
    assert polls[n] == init[n];
    assert LastListing(polls, n, id, t);
  }

  lemma PollLogStep(init: seq<Poll>, p: Poll, id: string, t: int)
    requires NonDecreasing(init + [p])
    ensures StatusOf(PollLog(init + [p], id), t) ==
      if id in Ids(p.snapshot) && ToUnix(p.now) <= ToUnix(t) then Some(LastOf(p.snapshot, id).status)
      else StatusOf(PollLog(init, id), t)
  {
    var polls, full := init + [p], PollLog(init, id);
    assert polls[..|polls| - 1] == init;
    PollLogSorted(init, id);
    PollLogSorted(polls, id);
    FloorOrder(ToUnix(p.now), t);
    assert full + [] == full;
    forall c | c in full ensures c.changedAt <= FromUnix(ToUnix(p.now)) {
      assert c in PollLog(polls, id);
    }
    if id in Ids(p.snapshot) {
      hide StatusOf;
      StatusAfter(full, [Observation(p, id)], FromUnix(ToUnix(p.now)), t);
    }
  }

  predicate LastListing(polls: seq<Poll>, n: nat, id: string, t: int)
    requires n < |polls|
  {
    && id in Ids(polls[n].snapshot) && ToUnix(polls[n].now) <= ToUnix(t)
    && forall m :: n < m < |polls| && id in Ids(polls[m].snapshot) ==> ToUnix(t) < ToUnix(polls[m].now)
  }
}
