// The tunnels table and what one snapshot does to it.
module Inventory {
  import opened Clock
  import opened StatusLog

  datatype Tunnel = Tunnel(id: string, name: string, status: string, firstSeen: int, lastSeen: int)

  datatype TunnelDiff = TunnelDiff(changes: seq<StatusChange>, added: seq<Tunnel>, removed: seq<Tunnel>)

  datatype IngressRule = IngressRule(tunnelID: string, index: int, hostname: string, service: string)

  type Table = map<string, Tunnel>

  predicate Keyed(table: Table) {
    forall id :: id in table ==> table[id].id == id
  }

  function Ids(snapshot: seq<Tunnel>): set<string> {
    set t | t in snapshot :: t.id
  }

  predicate Distinct(snapshot: seq<Tunnel>) {
    forall i, j :: 0 <= i < j < |snapshot| ==> snapshot[i].id != snapshot[j].id
  }

  // The entry that decides when an id occurs more than once.
  function LastOf(snapshot: seq<Tunnel>, id: string): Tunnel
    requires id in Ids(snapshot)
  {
    var t := snapshot[|snapshot| - 1];
    if t.id == id then t
    else
      assert snapshot == snapshot[..|snapshot| - 1] + [t];
      LastOf(snapshot[..|snapshot| - 1], id)
  }

  // A row keeps first_seen for as long as the tunnel stays listed.
  function Stored(prev: Table, t: Tunnel, now: int): Tunnel {
    var seen := FromUnix(ToUnix(now));
    t.(firstSeen := if t.id in prev then prev[t.id].firstSeen else seen, lastSeen := seen)
  }

  // The table after a save: the snapshot's tunnels and nothing else.
  function SavedTunnels(prev: Table, snapshot: seq<Tunnel>, now: int): Table {
    map id | id in Ids(snapshot) :: Stored(prev, LastOf(snapshot, id), now)
  }

  predicate Moved(prev: Table, t: Tunnel) {
    t.id !in prev || prev[t.id].status != t.status
  }

  function ChangeOf(prev: Table, t: Tunnel, now: int): StatusChange {
    StatusChange(t.id, if t.id in prev then prev[t.id].status else "", t.status, now)
  }

  function ChangesOf(prev: Table, snapshot: seq<Tunnel>, now: int): seq<StatusChange> {
    if snapshot == [] then []
    else
      var t := snapshot[|snapshot| - 1];
      ChangesOf(prev, snapshot[..|snapshot| - 1], now) + (if Moved(prev, t) then [ChangeOf(prev, t, now)] else [])
  }

  function AddedOf(prev: Table, snapshot: seq<Tunnel>): seq<Tunnel> {
    if snapshot == [] then []
    else
      var t := snapshot[|snapshot| - 1];
      AddedOf(prev, snapshot[..|snapshot| - 1]) + (if t.id in prev then [] else [t])
  }

  function RowOf(c: StatusChange): StatusRow {
    StatusRow(c.tunnelID, c.fromStatus, c.status, ToUnix(c.changedAt))
  }

  function RowsOf(changes: seq<StatusChange>): seq<StatusRow> {
    if changes == [] then []
    else
      var c := changes[|changes| - 1];
      RowsOf(changes[..|changes| - 1]) + [RowOf(c)]
  }

  // removed lists, in any order, every tunnel of prev whose id is in gone, once.
  predicate Lists(removed: seq<Tunnel>, prev: Table, gone: set<string>) {
    && (forall t :: t in removed ==> t.id in gone && t.id in prev && prev[t.id] == t)
    && (forall id :: id in gone && id in prev ==> prev[id] in removed)
    && Distinct(removed)
  }

  predicate DiffOf(prev: Table, snapshot: seq<Tunnel>, now: int, diff: TunnelDiff) {
    && diff.changes == ChangesOf(prev, snapshot, now)
    && diff.added == AddedOf(prev, snapshot)
    && Lists(diff.removed, prev, prev.Keys - Ids(snapshot))
  }

  datatype Poll = Poll(now: int, snapshot: seq<Tunnel>)

  // The two tables a save writes.
  datatype State = State(tunnels: Table, history: seq<StatusRow>)

  function Save(s: State, p: Poll): State {
    State(SavedTunnels(s.tunnels, p.snapshot, p.now), s.history + RowsOf(ChangesOf(s.tunnels, p.snapshot, p.now)))
  }

  function Without(rules: seq<IngressRule>, gone: set<string>): seq<IngressRule> {
    if rules == [] then []
    else
      var r := rules[|rules| - 1];
      Without(rules[..|rules| - 1], gone) + (if r.tunnelID in gone then [] else [r])
  }

  predicate NoOrphans(rules: seq<IngressRule>, table: Table) {
    forall r :: r in rules ==> r.tunnelID in table
  }

  // DELETE FROM tunnel_status_history WHERE changed_at < cutoff
  function Retained(rows: seq<StatusRow>, cutoff: int): seq<StatusRow> {
    if rows == [] then []
    else
      var r := rows[|rows| - 1];
      Retained(rows[..|rows| - 1], cutoff) + (if r.changedAt < cutoff then [] else [r])
  }

  lemma WithoutAppend(rules: seq<IngressRule>, r: IngressRule, gone: set<string>)
    ensures Without(rules + [r], gone) == Without(rules, gone) + (if r.tunnelID in gone then [] else [r])
  {
    assert (rules + [r])[..|rules|] == rules;
  }

  lemma {:induction false} WithoutTwice(rules: seq<IngressRule>, a: set<string>, b: set<string>)
    ensures Without(Without(rules, a), b) == Without(rules, a + b)
  {
    if rules != [] {
      var init, r := rules[..|rules| - 1], rules[|rules| - 1];
      WithoutTwice(init, a, b);
      if r.tunnelID in a {
        assert Without(init, a) + [] == Without(init, a);
      } else {
        WithoutAppend(Without(init, a), r, b);
      }
    }
  }

  lemma {:induction false} WithoutMembers(rules: seq<IngressRule>, gone: set<string>)
    ensures forall r :: r in Without(rules, gone) <==> r in rules && r.tunnelID !in gone
  {
    if rules != [] {
      WithoutMembers(rules[..|rules| - 1], gone);
      assert rules == rules[..|rules| - 1] + [rules[|rules| - 1]];
    }
  }

  lemma {:induction false} WithoutNone(rules: seq<IngressRule>)
    ensures Without(rules, {}) == rules
  {
    if rules != [] {
      WithoutNone(rules[..|rules| - 1]);
    }
  }

  lemma NothingSaved(prev: Table, now: int)
    ensures ChangesOf(prev, [], now) == [] && AddedOf(prev, []) == [] && RowsOf([]) == []
    ensures prev + SavedTunnels(prev, [], now) == prev
  {
  }

  lemma SnapshotStep(prev: Table, snapshot: seq<Tunnel>, n: nat, now: int)
    requires n < |snapshot|
    ensures snapshot[..n + 1] == snapshot[..n] + [snapshot[n]]
    ensures Ids(snapshot[..n + 1]) == Ids(snapshot[..n]) + {snapshot[n].id}
    ensures ChangesOf(prev, snapshot[..n + 1], now) == ChangesOf(prev, snapshot[..n], now)
      + (if Moved(prev, snapshot[n]) then [ChangeOf(prev, snapshot[n], now)] else [])
    ensures AddedOf(prev, snapshot[..n + 1]) == AddedOf(prev, snapshot[..n])
      + (if snapshot[n].id in prev then [] else [snapshot[n]])
  {
    var all := snapshot[..n + 1];
    assert all == snapshot[..n] + [snapshot[n]];
    assert all[..|all| - 1] == snapshot[..n];
  }

  lemma SavedStep(prev: Table, snapshot: seq<Tunnel>, n: nat, now: int)
    requires n < |snapshot|
    ensures SavedTunnels(prev, snapshot[..n + 1], now)
      == SavedTunnels(prev, snapshot[..n], now)[snapshot[n].id := Stored(prev, snapshot[n], now)]
  {
    SnapshotStep(prev, snapshot, n, now);
    var all := snapshot[..n + 1];
    assert all[..|all| - 1] == snapshot[..n];
  }

  lemma RowsAppend(changes: seq<StatusChange>, c: StatusChange)
    ensures RowsOf(changes + [c]) == RowsOf(changes) + [RowOf(c)]
  {
    assert (changes + [c])[..|changes|] == changes;
  }

  // k is the last place of an id in a snapshot.
  predicate LastPlace(snapshot: seq<Tunnel>, id: string, k: nat)
    requires k < |snapshot|
  {
    snapshot[k].id == id && forall j :: k < j < |snapshot| ==> snapshot[j].id != id
  }

  lemma {:induction false} LastOfIsMember(snapshot: seq<Tunnel>, id: string)
    requires id in Ids(snapshot)
    ensures LastOf(snapshot, id) in snapshot && LastOf(snapshot, id).id == id
    ensures exists k :: 0 <= k < |snapshot| && LastPlace(snapshot, id, k) && snapshot[k] == LastOf(snapshot, id)
    ensures forall t :: t in snapshot && t.id == id && Distinct(snapshot) ==> t == LastOf(snapshot, id)
  {
    var init, t := snapshot[..|snapshot| - 1], snapshot[|snapshot| - 1];
    assert snapshot == init + [t];
    if t.id == id {
      assert LastPlace(snapshot, id, |snapshot| - 1);
    } else {
      LastOfIsMember(init, id);
      var k :| 0 <= k < |init| && LastPlace(init, id, k) && init[k] == LastOf(init, id);
      assert LastPlace(snapshot, id, k);
    }
  }

  // ---- what a save does, row by row ----

  // The instant now reads back as once its second is stored.
  function SecondOf(now: int): int { now - now % 1_000_000_000 }

  // A row after a save: seen now, known for as long as before or from now on, and otherwise as the
  // snapshot's last entry for it says.
  ghost predicate Refreshed(row: Tunnel, before: Table, snapshot: seq<Tunnel>, now: int) {
    && row.lastSeen == SecondOf(now)
    && row.firstSeen == (if row.id in before then before[row.id].firstSeen else SecondOf(now))
    && exists k :: 0 <= k < |snapshot| && LastPlace(snapshot, row.id, k)
         && row.name == snapshot[k].name && row.status == snapshot[k].status
  }

  lemma SavedRow(prev: Table, snapshot: seq<Tunnel>, now: int, id: string)
    requires id in Ids(snapshot)
    ensures var row := SavedTunnels(prev, snapshot, now)[id]; row.id == id && Refreshed(row, prev, snapshot, now)
  {
    LastOfIsMember(snapshot, id);
    assert FromUnix(ToUnix(now)) == SecondOf(now);
  }

  // The entry brings a status that the table does not hold.
  predicate BringsNews(before: Table, t: Tunnel) {
    t.id in before ==> before[t.id].status != t.status
  }

  // One row per entry that brings news, in the snapshot's order: from the stored status, or from none.
  ghost predicate OneRowPerNews(rows: seq<StatusRow>, before: Table, snapshot: seq<Tunnel>, now: int) {
    exists at: seq<nat> :: NewsAt(at, before, snapshot) && RowsFor(rows, at, before, snapshot, now)
  }

  ghost predicate NewsAt(at: seq<nat>, before: Table, snapshot: seq<Tunnel>) {
    && (forall i, j :: 0 <= i < j < |at| ==> at[i] < at[j])
    && (forall k: nat :: k in at <==> k < |snapshot| && BringsNews(before, snapshot[k]))
  }

  ghost predicate RowsFor(rows: seq<StatusRow>, at: seq<nat>, before: Table, snapshot: seq<Tunnel>, now: int) {
    && |rows| == |at|
    && forall i :: 0 <= i < |rows| && at[i] < |snapshot| ==>
         var t := snapshot[at[i]];
         && rows[i].tunnelID == t.id && rows[i].status == t.status
         && rows[i].fromStatus == (if t.id in before then before[t.id].status else "")
         && FromUnix(rows[i].changedAt) == SecondOf(now)
  }

  // A save, row by row: every listed tunnel is refreshed and no other is left, each news leaves one row
  // in the history, a listed tunnel that was not stored counts as added, and only the ingress rows of
  // tunnels that are gone are deleted.
  ghost predicate SaveFacts(before: Table, rules: seq<IngressRule>, snapshot: seq<Tunnel>, now: int,
                            tunnels: Table, ingress: seq<IngressRule>, rows: seq<StatusRow>, diff: TunnelDiff)
  {
    && tunnels.Keys == Ids(snapshot)
    && (forall id :: id in tunnels ==> tunnels[id].id == id && Refreshed(tunnels[id], before, snapshot, now))
    && OneRowPerNews(rows, before, snapshot, now)
    && (forall t :: multiset(diff.added)[t] == if t.id in before then 0 else multiset(snapshot)[t])
    && (forall r ::
          multiset(ingress)[r] == if r.tunnelID in before && r.tunnelID !in tunnels then 0 else multiset(rules)[r])
  }

  lemma SavedFacts(before: Table, rules: seq<IngressRule>, snapshot: seq<Tunnel>, now: int, diff: TunnelDiff)
    requires DiffOf(before, snapshot, now, diff)
    ensures SaveFacts(before, rules, snapshot, now, SavedTunnels(before, snapshot, now),
                      Without(rules, before.Keys - Ids(snapshot)), RowsOf(ChangesOf(before, snapshot, now)), diff)
    ensures NoOrphans(rules, before) ==>
      NoOrphans(Without(rules, before.Keys - Ids(snapshot)), SavedTunnels(before, snapshot, now))
  {
    var at := RowsBringNews(before, snapshot, now);
    AddedCount(before, snapshot);
    WithoutCount(rules, before.Keys - Ids(snapshot));
    WithoutMembers(rules, before.Keys - Ids(snapshot));
    hide RowsOf, ChangesOf, AddedOf, Without, Refreshed, NewsAt, RowsFor;
    var tunnels := SavedTunnels(before, snapshot, now);
    forall id | id in tunnels ensures tunnels[id].id == id && Refreshed(tunnels[id], before, snapshot, now) {
      SavedRow(before, snapshot, now, id);
    }
  }

  lemma {:induction false} RowsBringNews(prev: Table, snapshot: seq<Tunnel>, now: int) returns (at: seq<nat>)
    ensures NewsAt(at, prev, snapshot) && RowsFor(RowsOf(ChangesOf(prev, snapshot, now)), at, prev, snapshot, now)
  {
    if snapshot == [] {
      return [];
    }
    var init, t := snapshot[..|snapshot| - 1], snapshot[|snapshot| - 1];
    assert snapshot == init + [t];
    var changes := ChangesOf(prev, init, now);
    at := RowsBringNews(prev, init, now);
    RowsAppend(changes, ChangeOf(prev, t, now));
    var rows := RowsOf(changes);
    assert RowsOf(ChangesOf(prev, snapshot, now))
      == if BringsNews(prev, t) then rows + [RowOf(ChangeOf(prev, t, now))] else rows by {
      assert changes + [] == changes;
    }
    hide RowsOf, ChangesOf;
    NewsStep(at, prev, init, t);
    RowsForStep(rows, at, prev, init, t, now);
    if BringsNews(prev, t) {
      at := at + [|init|];
    }
  }

  lemma NewsStep(at: seq<nat>, before: Table, init: seq<Tunnel>, t: Tunnel)
    requires NewsAt(at, before, init)
    ensures NewsAt(if BringsNews(before, t) then at + [|init|] else at, before, init + [t])
  {
    forall i | 0 <= i < |at| ensures at[i] < |init| {
      assert at[i] in at;
    }
  }

  lemma RowsForStep(rows: seq<StatusRow>, at: seq<nat>, before: Table, init: seq<Tunnel>, t: Tunnel, now: int)
    requires NewsAt(at, before, init) && RowsFor(rows, at, before, init, now)
    ensures RowsFor(rows, at, before, init + [t], now)
    ensures RowsFor(rows + [RowOf(ChangeOf(before, t, now))], at + [|init|], before, init + [t], now)
  {
    forall i | 0 <= i < |at| ensures at[i] < |init| {
      assert at[i] in at;
    }
  }

  // Which entries count as added.
  lemma {:induction false} AddedCount(prev: Table, snapshot: seq<Tunnel>)
    ensures forall t :: multiset(AddedOf(prev, snapshot))[t] == if t.id in prev then 0 else multiset(snapshot)[t]
  {
    if snapshot != [] {
      AddedCount(prev, snapshot[..|snapshot| - 1]);
      assert snapshot == snapshot[..|snapshot| - 1] + [snapshot[|snapshot| - 1]];
    }
  }

  lemma {:induction false} WithoutCount(rules: seq<IngressRule>, gone: set<string>)
    ensures forall r :: multiset(Without(rules, gone))[r] == if r.tunnelID in gone then 0 else multiset(rules)[r]
  {
    if rules != [] {
      WithoutCount(rules[..|rules| - 1], gone);
      assert rules == rules[..|rules| - 1] + [rules[|rules| - 1]];
    }
  }
}
