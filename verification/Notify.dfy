// Which events are announced, and the cooldown that keeps a flapping tunnel quiet.
module Notify {
  import opened Clock
  import opened Events
  import opened Prober

  datatype Severity = Blank | Info | Warning | Critical {
    function Rank(): nat {
      match this
      case Critical => 3
      case Warning => 2
      case Info => 1
      case Blank => 0
    }
  }

  function KindName(k: Kind): string {
    match k
    case TunnelStatus => "tunnel_status"
    case TunnelAdded => "tunnel_added"
    case TunnelRemoved => "tunnel_removed"
    case ConnectorAdded => "connector_added"
    case ConnectorRemoved => "connector_removed"
    case ConfigChanged => "config_changed"
    case VersionDrift => "version_drift"
    case Probe => "probe"
    case AccessCoverage => "access_coverage"
    case ServiceTokenAging => "service_token_aging"
    case OriginCountry => "origin_country"
    case PollFailed => "poll_failed"
  }

  function EventSeverity(e: Event): Severity {
    match e.kind
    case PollFailed => Critical
    case TunnelRemoved => Critical
    case TunnelStatus => if e.toState == "healthy" then Info else Critical
    case ConnectorRemoved => Warning
    case Probe => if IsFailure(e.toState) then Warning else Info
    case _ => Info
  }

  // What ordinary work brings about is never announced.
  predicate Announceable(e: Event) {
    !e.kind.ConfigChanged? && !e.kind.ConnectorAdded? && !e.kind.TunnelAdded?
  }

  function DedupKey(e: Event): string {
    KindName(e.kind) + "|" + (e.tunnelID + "|" + (e.hostname + "|" + e.toState))
  }

  // One row of the outbox.
  datatype Record = Record(key: string, createdAt: int, severity: Severity, kind: Kind, tunnelID: string,
                           hostname: string, sent: bool)

  // What the database and the transport do with one event.
  datatype Io = Io(queryOk: bool, sendOk: bool, writeOk: bool)

  datatype Config = Config(minSeverity: Severity, cooldown: int)

  predicate Qualifies(c: Config, e: Event) {
    Announceable(e) && EventSeverity(e).Rank() >= c.minSeverity.Rank()
  }

  // The outbox holds an entry with this key from since's second on.
  predicate NotifiedSince(outbox: seq<Record>, key: string, since: int) {
    exists i :: 0 <= i < |outbox| && outbox[i].key == key && ToUnix(since) <= outbox[i].createdAt
  }

  function RecordOf(e: Event, sent: bool): Record {
    Record(DedupKey(e), ToUnix(e.timestamp), EventSeverity(e), e.kind, e.tunnelID, e.hostname, sent)
  }

  predicate Delivers(c: Config, outbox: seq<Record>, e: Event, io: Io) {
    Qualifies(c, e) && io.queryOk && !NotifiedSince(outbox, DedupKey(e), e.timestamp - c.cooldown)
  }

  // The outbox after a series of events, whatever failed on the way.
  function Outbox(c: Config, start: seq<Record>, events: seq<Event>, ios: seq<Io>): seq<Record>
    requires |events| == |ios|
  {
    if events == [] then start
    else
      var n := |events| - 1;
      var before := Outbox(c, start, events[..n], ios[..n]);
      if Delivers(c, before, events[n], ios[n]) && ios[n].writeOk then before + [RecordOf(events[n], ios[n].sendOk)]
      else before
  }

  // The events behind the entries of an outbox that started empty.
  function Sources(c: Config, events: seq<Event>, ios: seq<Io>): seq<Event>
    requires |events| == |ios|
  {
    if events == [] then []
    else
      var n := |events| - 1;
      var before := Sources(c, events[..n], ios[..n]);
      var outbox := Outbox(c, [], events[..n], ios[..n]);
      if Delivers(c, outbox, events[n], ios[n]) && ios[n].writeOk then before + [events[n]] else before
  }

  // ---- what is announced, by kind and target state ----

  // A failed poll, a tunnel that disappeared, or one that turned anything but healthy.
  predicate Outage(e: Event) {
    e.kind.PollFailed? || e.kind.TunnelRemoved? || (e.kind.TunnelStatus? && e.toState != "healthy")
  }

  // A connector that went away, or a probe that failed.
  predicate Impairment(e: Event) {
    || e.kind.ConnectorRemoved?
    || (e.kind.Probe?
          && e.toState in {"tunnel_down", "origin_error", "timeout", "dns_error", "tls_error", "http_error"})
  }

  // The events a threshold lets through.
  predicate Announced(threshold: Severity, e: Event) {
    match threshold
    case Critical => Outage(e)
    case Warning => Outage(e) || Impairment(e)
    case _ => !e.kind.ConfigChanged? && !e.kind.ConnectorAdded? && !e.kind.TunnelAdded?
  }

  // The outbox holds an entry about the event's condition that is recent enough to keep it quiet.
  ghost predicate Covered(outbox: seq<Record>, e: Event, cooldown: int) {
    exists r :: r in outbox && r.key == DedupKey(e) && (e.timestamp - cooldown) / 1_000_000_000 <= r.createdAt
  }

  // The entry records the event, at its second and with its urgency, and whether it was delivered.
  predicate Reports(r: Record, e: Event, io: Io) {
    && r.key == DedupKey(e) && r.createdAt == e.timestamp / 1_000_000_000
    && r.severity == (if Outage(e) then Critical else if Impairment(e) then Warning else Info)
    && r.kind == e.kind && r.tunnelID == e.tunnelID && r.hostname == e.hostname && r.sent == io.sendOk
  }

  // Each entry from the given place on stems from an event that the threshold lets through.
  ghost predicate AllStem(outbox: seq<Record>, from: nat, threshold: Severity, events: seq<Event>, ios: seq<Io>)
    requires |events| == |ios|
  {
    forall i :: from <= i < |outbox| ==>
      exists k :: 0 <= k < |events| && Announced(threshold, events[k]) && Reports(outbox[i], events[k], ios[k])
  }

  lemma QualifiesByKind(c: Config, e: Event)
    requires !c.minSeverity.Blank?
    ensures Qualifies(c, e) <==> Announced(c.minSeverity, e)
    ensures EventSeverity(e) == if Outage(e) then Critical else if Impairment(e) then Warning else Info
  {
  }

  lemma RecordReports(e: Event, io: Io)
    ensures Reports(RecordOf(e, io.sendOk), e, io)
  {
    QualifiesByKind(Config(Info, 0), e);
    hide EventSeverity, Outage, Impairment, DedupKey;
  }

  lemma {:induction false} EntriesStem(c: Config, start: seq<Record>, events: seq<Event>, ios: seq<Io>)
    requires |events| == |ios| && !c.minSeverity.Blank?
    ensures start <= Outbox(c, start, events, ios)
    ensures AllStem(Outbox(c, start, events, ios), |start|, c.minSeverity, events, ios)
  {
    if events != [] {
      var n := |events| - 1;
      var before, e := Outbox(c, start, events[..n], ios[..n]), events[n];
      EntriesStem(c, start, events[..n], ios[..n]);
      QualifiesByKind(c, e);
      RecordReports(e, ios[n]);
      assert Outbox(c, start, events, ios)
        == if Delivers(c, before, e, ios[n]) && ios[n].writeOk then before + [RecordOf(e, ios[n].sendOk)] else before;
      hide Outbox, Qualifies, RecordOf, Announced, Reports, DedupKey;
      var all := Outbox(c, start, events, ios);
      forall i | |start| <= i < |all|
        ensures exists k :: 0 <= k < |events| && Announced(c.minSeverity, events[k]) && Reports(all[i], events[k], ios[k])
      {
        if i < |before| {
          var k :| 0 <= k < n && Announced(c.minSeverity, events[..n][k]) && Reports(before[i], events[..n][k], ios[..n][k]);
          assert events[..n][k] == events[k] && ios[..n][k] == ios[k];
        } else {
          assert Announced(c.minSeverity, events[n]);
        }
      }
    }
  }

  lemma AllCovered(c: Config, start: seq<Record>, events: seq<Event>, ios: seq<Io>)
    requires |events| == |ios| && StoreWorks(ios) && 0 < c.cooldown && !c.minSeverity.Blank?
    ensures forall k :: 0 <= k < |events| && Announced(c.minSeverity, events[k]) ==>
      Covered(Outbox(c, start, events, ios), events[k], c.cooldown)
  {
    var all := Outbox(c, start, events, ios);
    hide Outbox, DedupKey, Qualifies, StoreWorks, Announced;
    forall k | 0 <= k < |events| && Announced(c.minSeverity, events[k])
      ensures Covered(all, events[k], c.cooldown)
    {
      var e := events[k];
      QualifiesByKind(c, e);
      NothingIsLost(c, start, events, ios, k);
      var i :| 0 <= i < |all| && all[i].key == DedupKey(e) && ToUnix(e.timestamp - c.cooldown) <= all[i].createdAt;
      assert all[i] in all;
    }
  }

  class Dispatcher {
    const config: Config
    const enabled: bool
    var outbox: seq<Record>

    // A usable configuration: some severity is asked for, and repeats are kept quiet for some time.
    ghost predicate Valid()
      reads this
    {
      !config.minSeverity.Blank? && 0 < config.cooldown
    }

    // Whatever is configured, the dispatcher is usable; nothing that was usable is overridden.
    constructor (enabled: bool, config: Config)
      ensures Valid() && this.enabled == enabled && outbox == []
      ensures !config.minSeverity.Blank? ==> this.config.minSeverity == config.minSeverity
      ensures 0 < config.cooldown ==> this.config.cooldown == config.cooldown
      ensures config.minSeverity.Blank? ==> this.config.minSeverity == Warning
      ensures config.cooldown <= 0 ==> this.config.cooldown == 60 * 60 * 1_000_000_000
    {
      var severity, cooldown := config.minSeverity, config.cooldown;
      if severity.Blank? {
        severity := Warning;
      }
      if cooldown <= 0 {
        cooldown := HOUR;
      }
      this.enabled, this.config, outbox := enabled, Config(severity, cooldown), [];
    }

    // Evaluates a batch; a failed query skips the event, a failed delivery is still recorded. With the
    // store working no qualifying event goes unannounced.
    method Dispatch(events: seq<Event>, ios: seq<Io>)
      requires Valid() && |events| == |ios|
      modifies this`outbox
      ensures Valid()
      ensures outbox == if enabled then Outbox(config, old(outbox), events, ios) else old(outbox)
      ensures enabled && StoreWorks(ios) ==> forall k :: 0 <= k < |events| && Announced(config.minSeverity, events[k]) ==>
        Covered(outbox, events[k], config.cooldown)
      ensures old(outbox) <= outbox && AllStem(outbox, |old(outbox)|, config.minSeverity, events, ios)
    {
      if !enabled || |events| == 0 {
        return;
      }
      for i := 0 to |events|
        invariant outbox == Outbox(config, old(outbox), events[..i], ios[..i])
      {
        assert events[..i + 1][..i] == events[..i] && ios[..i + 1][..i] == ios[..i];
        if !Announceable(events[i]) || EventSeverity(events[i]).Rank() < config.minSeverity.Rank() {
          continue;
        }
        if !ios[i].queryOk {
          continue;
        }
        if NotifiedSince(outbox, DedupKey(events[i]), events[i].timestamp - config.cooldown) {
          continue;
        }
        Deliver(events[i], ios[i]);
      }
      assert events[..|events|] == events && ios[..|ios|] == ios;
      EntriesStem(config, old(outbox), events, ios);
      if StoreWorks(ios) {
        AllCovered(config, old(outbox), events, ios);
      }
      hide *;
    }

    method Deliver(e: Event, io: Io)
      modifies this`outbox
      ensures outbox == if io.writeOk then old(outbox) + [RecordOf(e, io.sendOk)] else old(outbox)
    {
      var record := RecordOf(e, true);
      if !io.sendOk {
        record := record.(sent := false);
      }
      if io.writeOk {
        outbox := outbox + [record];
      }
    }
  }

  // ---- the cooldown over any run ----

  ghost predicate Spaced(sources: seq<Event>, cooldown: int) {
    forall i, j :: 0 <= i < j < |sources| && DedupKey(sources[i]) == DedupKey(sources[j])
      ==> sources[i].timestamp + cooldown < sources[j].timestamp
  }

  ghost predicate Records(outbox: seq<Record>, sources: seq<Event>) {
    && |outbox| == |sources|
    && forall i :: 0 <= i < |outbox| ==> outbox[i] == RecordOf(sources[i], outbox[i].sent)
  }

  // Whatever the order of the events and whatever fails: two entries with one key stem from events
  // more than a cooldown apart, although only whole seconds are stored.
  lemma {:induction false} CooldownHolds(c: Config, events: seq<Event>, ios: seq<Io>)
    requires |events| == |ios|
    ensures Records(Outbox(c, [], events, ios), Sources(c, events, ios))
    ensures Spaced(Sources(c, events, ios), c.cooldown)
    ensures forall e :: e in Sources(c, events, ios) ==> e in events && Qualifies(c, e)
  {
    if events != [] {
      var n := |events| - 1;
      CooldownHolds(c, events[..n], ios[..n]);
      var outbox, sources, e := Outbox(c, [], events[..n], ios[..n]), Sources(c, events[..n], ios[..n]), events[n];
      assert Outbox(c, [], events, ios)
        == if Delivers(c, outbox, e, ios[n]) && ios[n].writeOk then outbox + [RecordOf(e, ios[n].sendOk)] else outbox;
      assert Sources(c, events, ios)
        == if Delivers(c, outbox, e, ios[n]) && ios[n].writeOk then sources + [e] else sources;
      hide Outbox, Sources, DedupKey, Qualifies;
      if Delivers(c, outbox, e, ios[n]) {
        forall i | 0 <= i < |sources| && DedupKey(sources[i]) == DedupKey(e)
          ensures sources[i].timestamp + c.cooldown < e.timestamp
        {
          assert outbox[i].key == DedupKey(e);
          assert outbox[i].createdAt < ToUnix(e.timestamp - c.cooldown);
        }
      }
    }
  }

  predicate StoreWorks(ios: seq<Io>) {
    forall i :: 0 <= i < |ios| ==> ios[i].queryOk && ios[i].writeOk
  }

  lemma {:induction false} OutboxGrows(c: Config, start: seq<Record>, events: seq<Event>, ios: seq<Io>)
    requires |events| == |ios|
    ensures start <= Outbox(c, start, events, ios)
  {
    if events != [] {
      OutboxGrows(c, start, events[..|events| - 1], ios[..|events| - 1]);
    }
  }

  // Batches add up: dispatching one after the other is dispatching both at once.
  lemma {:induction false} BatchesAddUp(c: Config, start: seq<Record>, a: seq<Event>, aIos: seq<Io>,
                                        b: seq<Event>, bIos: seq<Io>)
    requires |a| == |aIos| && |b| == |bIos|
    ensures Outbox(c, Outbox(c, start, a, aIos), b, bIos) == Outbox(c, start, a + b, aIos + bIos)
  {
    hide Delivers, RecordOf;
    if b == [] {
      assert a + b == a && aIos + bIos == aIos;
    } else {
      var n := |b| - 1;
      BatchesAddUp(c, start, a, aIos, b[..n], bIos[..n]);
      assert (a + b)[..|a| + n] == a + b[..n] && (aIos + bIos)[..|a| + n] == aIos + bIos[..n];
    }
  }

  // With the store working, no qualifying event goes unannounced: it is recorded, or the same
  // condition was recorded at or after its time minus the cooldown.
  lemma {:induction false} NothingIsLost(c: Config, start: seq<Record>, events: seq<Event>, ios: seq<Io>, k: nat)
    requires |events| == |ios| && StoreWorks(ios) && k < |events| && Qualifies(c, events[k]) && 0 < c.cooldown
    ensures NotifiedSince(Outbox(c, start, events, ios), DedupKey(events[k]), events[k].timestamp - c.cooldown)
  {
    var n := |events| - 1;
    var before, all := Outbox(c, start, events[..n], ios[..n]), Outbox(c, start, events, ios);
    assert all == if Delivers(c, before, events[n], ios[n]) && ios[n].writeOk
      then before + [RecordOf(events[n], ios[n].sendOk)] else before;
    hide DedupKey, Qualifies, Outbox, NotifiedSince;
    if k < n {
      NothingIsLost(c, start, events[..n], ios[..n], k);
      NotifiedGrows(before, all, DedupKey(events[k]), events[k].timestamp - c.cooldown);
    } else if Delivers(c, before, events[n], ios[n]) {
      JustNotified(before, events[n], ios[n].sendOk, c.cooldown);
    }
  }

  lemma NotifiedGrows(outbox: seq<Record>, more: seq<Record>, key: string, since: int)
    requires outbox <= more && NotifiedSince(outbox, key, since)
    ensures NotifiedSince(more, key, since)
  {
    var i :| 0 <= i < |outbox| && outbox[i].key == key && ToUnix(since) <= outbox[i].createdAt;
    assert more[i] == outbox[i];
  }

  lemma JustNotified(outbox: seq<Record>, e: Event, sent: bool, cooldown: int)
    requires 0 < cooldown
    ensures NotifiedSince(outbox + [RecordOf(e, sent)], DedupKey(e), e.timestamp - cooldown)
  {
    FloorMonotone(e.timestamp - cooldown, e.timestamp);
    assert (outbox + [RecordOf(e, sent)])[|outbox|] == RecordOf(e, sent);
  }

  // ---- the key names the condition ----

  predicate BarFree(s: string) {
    '|' !in s
  }

  lemma {:induction false} FirstField(a: string, x: string, b: string, y: string)
    requires BarFree(a) && BarFree(b) && a + "|" + x == b + "|" + y
    ensures a == b && x == y
  {
    var s := a + "|" + x;
    assert s[|a|] == '|' && s[|b|] == '|';
    assert forall i :: 0 <= i < |a| ==> s[i] == a[i];
    assert forall i :: 0 <= i < |b| ==> s[i] == b[i];
    assert |a| == |b|;
    assert a == s[..|a|] && b == s[..|b|];
    assert x == s[|a| + 1..] && y == s[|b| + 1..];
  }

  // Between events whose tunnel and hostname are free of the separator, keys collide only when kind,
  // tunnel, hostname and target state all match; the target state may even contain it.
  lemma KeysNameConditions(e: Event, f: Event)
    requires BarFree(e.tunnelID) && BarFree(e.hostname) && BarFree(f.tunnelID) && BarFree(f.hostname)
    requires DedupKey(e) == DedupKey(f)
    ensures e.kind == f.kind && e.tunnelID == f.tunnelID && e.hostname == f.hostname && e.toState == f.toState
  {
    KindNamesBarFree(e.kind);
    KindNamesBarFree(f.kind);
    var eRest, fRest := e.hostname + "|" + e.toState, f.hostname + "|" + f.toState;
    hide KindName, BarFree;
    FirstField(KindName(e.kind), e.tunnelID + "|" + eRest, KindName(f.kind), f.tunnelID + "|" + fRest);
    FirstField(e.tunnelID, eRest, f.tunnelID, fRest);
    FirstField(e.hostname, e.toState, f.hostname, f.toState);
    KindNamesDiffer(e.kind, f.kind);
  }

  predicate SameCondition(e: Event, f: Event) {
    e.kind == f.kind && e.tunnelID == f.tunnelID && e.hostname == f.hostname && e.toState == f.toState
  }

  // No field after the kind contains the separator.
  predicate Separable(e: Event) {
    BarFree(e.tunnelID) && BarFree(e.hostname) && BarFree(e.toState)
  }

  function Bars(s: string): nat {
    if s == "" then 0 else Bars(s[..|s| - 1]) + (if s[|s| - 1] == '|' then 1 else 0)
  }

  lemma {:induction false} BarsConcat(a: string, b: string)
    ensures Bars(a + b) == Bars(a) + Bars(b)
  {
    if b == "" {
      assert a + b == a;
    } else {
      BarsConcat(a, b[..|b| - 1]);
      assert (a + b)[..|a + b| - 1] == a + b[..|b| - 1];
    }
  }

  lemma {:induction false} BarsCount(s: string)
    ensures Bars(s) == 0 <==> BarFree(s)
  {
    if s != "" {
      BarsCount(s[..|s| - 1]);
      assert s == s[..|s| - 1] + [s[|s| - 1]];
    }
  }

  lemma BarsJoin(a: string, b: string)
    ensures Bars(a + "|" + b) == Bars(a) + 1 + Bars(b)
  {
    BarsConcat(a + "|", b);
    BarsConcat(a, "|");
    assert "|"[..0] == "" && Bars("|") == 1;
  }

  // A key holds three separators and those inside its fields.
  lemma KeyBars(e: Event)
    ensures Bars(DedupKey(e)) == 3 + Bars(e.tunnelID) + Bars(e.hostname) + Bars(e.toState)
    ensures Separable(e) <==> Bars(DedupKey(e)) == 3
  {
    KindNamesBarFree(e.kind);
    BarsCount(KindName(e.kind));
    BarsCount(e.tunnelID);
    BarsCount(e.hostname);
    BarsCount(e.toState);
    var rest := e.hostname + "|" + e.toState;
    assert e.tunnelID + "|" + (e.hostname + "|" + e.toState) == e.tunnelID + "|" + rest;
    BarsJoin(e.hostname, e.toState);
    BarsJoin(e.tunnelID, rest);
    BarsJoin(KindName(e.kind), e.tunnelID + "|" + rest);
    assert DedupKey(e) == KindName(e.kind) + "|" + (e.tunnelID + "|" + rest);
    hide DedupKey, KindName, Bars, BarFree;
  }

  lemma SplitAtBar(s: string) returns (x: string, y: string)
    requires !BarFree(s)
    ensures s == x + "|" + y
  {
    var k :| 0 <= k < |s| && s[k] == '|';
    x, y := s[..k], s[k + 1..];
  }

  // With the separator inside a field, some other condition has the same key: the separator is read as
  // the end of the field.
  lemma SeparatorsCollide(e: Event) returns (f: Event)
    requires !Separable(e)
    ensures DedupKey(f) == DedupKey(e) && !SameCondition(e, f)
  {
    var t, h, s := e.tunnelID, e.hostname, e.toState;
    if !BarFree(t) {
      var x, y := SplitAtBar(t);
      f := e.(tunnelID := x, hostname := y + "|" + h);
      assert t + "|" + (h + "|" + s) == x + "|" + (y + "|" + h + "|" + s);
      assert y + "|" + h + "|" + s == (y + "|" + h) + "|" + s;
    } else if !BarFree(h) {
      var x, y := SplitAtBar(h);
      f := e.(tunnelID := t + "|" + x, hostname := y);
      assert t + "|" + (h + "|" + s) == (t + "|" + x) + "|" + (y + "|" + s);
    } else {
      var x, y := SplitAtBar(s);
      f := e.(hostname := h + "|" + x, toState := y);
      assert h + "|" + s == (h + "|" + x) + "|" + y;
    }
  }

  // A key stands for one condition only if and only if no field contains the separator.
  lemma KeyUniqueIff(e: Event)
    ensures (forall f: Event :: DedupKey(f) == DedupKey(e) ==> SameCondition(e, f)) <==> Separable(e)
  {
    if Separable(e) {
      forall f: Event | DedupKey(f) == DedupKey(e) ensures SameCondition(e, f) {
        KeyBars(e);
        KeyBars(f);
        KeysNameConditions(e, f);
      }
    } else {
      var f := SeparatorsCollide(e);
    }
  }

  lemma KindNamesBarFree(k: Kind)
    ensures BarFree(KindName(k))
  {
  }

  lemma KindNamesDiffer(a: Kind, b: Kind)
    requires KindName(a) == KindName(b)
    ensures a == b
  {
    assert |KindName(a)| == |KindName(b)|;
    assert KindName(a)[0] == KindName(b)[0];
    assert KindName(a)[1] == KindName(b)[1];
  }
}
