// Access coverage, computed once per tunnel as findings and once for the dashboard totals.
module Coverage {
  import opened Inventory
  import opened Text

  const ACCESS_UNPROTECTED := "access_unprotected"

  datatype AccessApp = AccessApp(name: string, domains: seq<string>)

  datatype Finding = Finding(code: string, hostname: string)

  datatype FindingRef = FindingRef(code: string, tunnelID: string, hostname: string)

  predicate IsHTTPService(service: string) {
    "http://" <= service || "https://" <= service
  }

  function ProtectedHosts(apps: seq<AccessApp>): set<string> {
    set i, j | 0 <= i < |apps| && 0 <= j < |apps[i].domains| :: Lower(apps[i].domains[j])
  }

  // A rule whose host could be covered by an Access application.
  predicate Coverable(r: IngressRule) {
    r.hostname != "" && IsHTTPService(r.service)
  }

  // A coverable rule without an application, on the side of the genuine gaps or of the public hosts.
  predicate Uncovered(r: IngressRule, covered: set<string>, expected: set<string>, public: bool) {
    Coverable(r) && Lower(r.hostname) !in covered && (Lower(r.hostname) in expected) == public
  }

  function Side(rules: seq<IngressRule>, covered: set<string>, expected: set<string>, public: bool): seq<IngressRule> {
    if rules == [] then []
    else
      var r := rules[|rules| - 1];
      Side(rules[..|rules| - 1], covered, expected, public)
      + (if Uncovered(r, covered, expected, public) then [r] else [])
  }

  // The rules of the given tunnels, in table order.
  function OfTunnels(rules: seq<IngressRule>, ids: set<string>): seq<IngressRule> {
    if rules == [] then []
    else
      var r := rules[|rules| - 1];
      OfTunnels(rules[..|rules| - 1], ids) + (if r.tunnelID in ids then [r] else [])
  }

  function Coverables(rules: seq<IngressRule>): seq<IngressRule> {
    if rules == [] then []
    else
      var r := rules[|rules| - 1];
      Coverables(rules[..|rules| - 1]) + (if Coverable(r) then [r] else [])
  }

  // The coverable rules an application covers.
  function CoveredRules(rules: seq<IngressRule>, covered: set<string>): seq<IngressRule> {
    if rules == [] then []
    else
      var r := rules[|rules| - 1];
      CoveredRules(rules[..|rules| - 1], covered) + (if Coverable(r) && Lower(r.hostname) in covered then [r] else [])
  }

  // Each coverable rule is exactly one of covered, public on purpose, or a gap, as often as it occurs.
  lemma {:induction false} ExactlyOne(rules: seq<IngressRule>, covered: set<string>, expected: set<string>)
    ensures multiset(Coverables(rules)) == multiset(CoveredRules(rules, covered))
      + multiset(Side(rules, covered, expected, false)) + multiset(Side(rules, covered, expected, true))
  {
    if rules != [] {
      var init, r := rules[..|rules| - 1], rules[|rules| - 1];
      ExactlyOne(init, covered, expected);
      OneOfThree(r, covered, expected);
      assert Coverables(rules) == Coverables(init) + (if Coverable(r) then [r] else []);
      assert CoveredRules(rules, covered)
        == CoveredRules(init, covered) + (if Coverable(r) && Lower(r.hostname) in covered then [r] else []);
      assert Side(rules, covered, expected, false)
        == Side(init, covered, expected, false) + (if Uncovered(r, covered, expected, false) then [r] else []);
      assert Side(rules, covered, expected, true)
        == Side(init, covered, expected, true) + (if Uncovered(r, covered, expected, true) then [r] else []);
      hide Coverables, CoveredRules, Side, Uncovered, Coverable, Lower;
    }
  }

  lemma OneOfThree(r: IngressRule, covered: set<string>, expected: set<string>)
    ensures Uncovered(r, covered, expected, false) || Uncovered(r, covered, expected, true)
      <==> Coverable(r) && Lower(r.hostname) !in covered
    ensures !(Uncovered(r, covered, expected, false) && Uncovered(r, covered, expected, true))
  {
  }

  lemma {:induction false} CoverablesMembers(rules: seq<IngressRule>, covered: set<string>)
    ensures forall r :: r in Coverables(rules) <==> r in rules && Coverable(r)
    ensures forall r :: r in CoveredRules(rules, covered) <==> r in rules && Coverable(r) && Lower(r.hostname) in covered
  {
    if rules != [] {
      CoverablesMembers(rules[..|rules| - 1], covered);
      assert rules == rules[..|rules| - 1] + [rules[|rules| - 1]];
    }
  }

  // ---- rule by rule ----

  // An HTTP rule with a hostname that no application names, in whatever case.
  predicate Unnamed(r: IngressRule, apps: seq<AccessApp>) {
    && r.hostname != "" && ("http://" <= r.service || "https://" <= r.service)
    && forall i, j :: 0 <= i < |apps| && 0 <= j < |apps[i].domains| ==> Lower(apps[i].domains[j]) != Lower(r.hostname)
  }

  // gaps holds the uncovered rules that are, or are not, public on purpose, as often as they occur.
  ghost predicate Sides(gaps: seq<IngressRule>, rules: seq<IngressRule>, apps: seq<AccessApp>, expected: set<string>,
                        public: bool)
  {
    forall r :: multiset(gaps)[r]
                == if Unnamed(r, apps) && (Lower(r.hostname) in expected) == public then multiset(rules)[r] else 0
  }

  lemma {:induction false} SideCount(rules: seq<IngressRule>, covered: set<string>, expected: set<string>, public: bool)
    ensures forall r :: multiset(Side(rules, covered, expected, public))[r]
                        == if Uncovered(r, covered, expected, public) then multiset(rules)[r] else 0
  {
    if rules != [] {
      var init, r := rules[..|rules| - 1], rules[|rules| - 1];
      SideCount(init, covered, expected, public);
      assert rules == init + [r];
      var side := Side(init, covered, expected, public);
      assert Side(rules, covered, expected, public)
        == if Uncovered(r, covered, expected, public) then side + [r] else side;
      hide Side, Uncovered;
    }
  }

  lemma SidesMean(rules: seq<IngressRule>, apps: seq<AccessApp>, expected: set<string>, public: bool)
    ensures Sides(Side(rules, ProtectedHosts(apps), expected, public), rules, apps, expected, public)
  {
    SideCount(rules, ProtectedHosts(apps), expected, public);
    forall r ensures Uncovered(r, ProtectedHosts(apps), expected, public)
                     <==> Unnamed(r, apps) && (Lower(r.hostname) in expected) == public {
      NamedByNone(r, apps);
    }
    hide Uncovered, Unnamed, Side;
  }

  lemma NamedByNone(r: IngressRule, apps: seq<AccessApp>)
    ensures Coverable(r) && Lower(r.hostname) !in ProtectedHosts(apps) <==> Unnamed(r, apps)
  {
    hide Lower;
  }

  // ---- the per-tunnel side ----

  method CoveredHosts(apps: seq<AccessApp>) returns (covered: set<string>)
    ensures covered == ProtectedHosts(apps)
  {
    covered := {};
    for i := 0 to |apps|
      invariant covered == ProtectedHosts(apps[..i])
    {
      for j := 0 to |apps[i].domains|
        invariant covered == ProtectedHosts(apps[..i]) + ProtectedHosts([AccessApp("", apps[i].domains[..j])])
      {
        covered := covered + {Lower(apps[i].domains[j])};
      }
      ProtectedStep(apps, i);
    }
    assert apps[..|apps|] == apps;
  }

  lemma ProtectedStep(apps: seq<AccessApp>, i: nat)
    requires i < |apps|
    ensures ProtectedHosts(apps[..i + 1])
      == ProtectedHosts(apps[..i]) + ProtectedHosts([AccessApp("", apps[i].domains[..|apps[i].domains|])])
  {
    var all, before, last := apps[..i + 1], apps[..i], [AccessApp("", apps[i].domains[..|apps[i].domains|])];
    assert last[0].domains == apps[i].domains;
    forall h ensures h in ProtectedHosts(all) <==> h in ProtectedHosts(before) + ProtectedHosts(last) {
      if h in ProtectedHosts(all) {
        var a, d :| 0 <= a < |all| && 0 <= d < |all[a].domains| && Lower(all[a].domains[d]) == h;
        if a < i {
          assert before[a] == all[a];
        } else {
          assert Lower(last[0].domains[d]) == h;
        }
      }
      if h in ProtectedHosts(before) {
        var a, d :| 0 <= a < |before| && 0 <= d < |before[a].domains| && Lower(before[a].domains[d]) == h;
        assert all[a] == before[a];
      }
      if h in ProtectedHosts(last) {
        var a, d :| 0 <= a < |last| && 0 <= d < |last[a].domains| && Lower(last[a].domains[d]) == h;
        assert Lower(all[i].domains[d]) == h;
      }
    }
  }

  // The findings about one tunnel's uncovered hosts.
  method EvaluateAccessCoverage(available: bool, apps: seq<AccessApp>, rules: seq<IngressRule>, expected: set<string>)
    returns (findings: seq<Finding>)
    ensures findings == if available then FindingsOf(Side(rules, ProtectedHosts(apps), expected, false)) else []
    ensures available ==>
      exists gaps :: Sides(gaps, rules, apps, expected, false) && OnePerGap(findings, gaps)
  {
    findings := [];
    if !available {
      return;
    }
    var covered := CoveredHosts(apps);
    ghost var gaps: seq<IngressRule> := [];
    for i := 0 to |rules|
      invariant gaps == Side(rules[..i], covered, expected, false) && findings == FindingsOf(gaps)
    {
      assert rules[..i + 1][..i] == rules[..i];
      if rules[i].hostname == "" || !IsHTTPService(rules[i].service) {
        continue;
      }
      var host := Lower(rules[i].hostname);
      if host in covered || host in expected {
        continue;
      }
      gaps := gaps + [rules[i]];
      findings := findings + [Finding(ACCESS_UNPROTECTED, rules[i].hostname)];
    }
    assert rules[..|rules|] == rules;
    SidesMean(rules, apps, expected, false);
    assert OnePerGap(findings, gaps);
    hide Sides, Side;
  }

  predicate OnePerGap(findings: seq<Finding>, gaps: seq<IngressRule>) {
    |findings| == |gaps| && forall i :: 0 <= i < |gaps| ==> findings[i] == Finding("access_unprotected", gaps[i].hostname)
  }

  function FindingsOf(gaps: seq<IngressRule>): seq<Finding> {
    seq(|gaps|, i requires 0 <= i < |gaps| => Finding(ACCESS_UNPROTECTED, gaps[i].hostname))
  }

  predicate Muted(f: Finding, tunnelID: string, ignored: set<FindingRef>) {
    FindingRef(f.code, tunnelID, Lower(f.hostname)) in ignored
  }

  function Visible(findings: seq<Finding>, tunnelID: string, ignored: set<FindingRef>): seq<Finding> {
    if findings == [] then []
    else
      var f := findings[|findings| - 1];
      Visible(findings[..|findings| - 1], tunnelID, ignored) + (if Muted(f, tunnelID, ignored) then [] else [f])
  }

  method VisibleFindings(findings: seq<Finding>, tunnelID: string, ignored: set<FindingRef>) returns (out: seq<Finding>)
    ensures out == Visible(findings, tunnelID, ignored)
    ensures forall f ::
      multiset(out)[f] == if FindingRef(f.code, tunnelID, Lower(f.hostname)) in ignored then 0 else multiset(findings)[f]
  {
    VisibleCount(findings, tunnelID, ignored);
    if ignored == {} {
      NothingMuted(findings, tunnelID, ignored);
      return findings;
    }
    out := [];
    for i := 0 to |findings|
      invariant out == Visible(findings[..i], tunnelID, ignored)
    {
      assert findings[..i + 1][..i] == findings[..i];
      if FindingRef(findings[i].code, tunnelID, Lower(findings[i].hostname)) !in ignored {
        out := out + [findings[i]];
      }
    }
    assert findings[..|findings|] == findings;
  }

  lemma {:induction false} VisibleCount(findings: seq<Finding>, tunnelID: string, ignored: set<FindingRef>)
    ensures forall f :: multiset(Visible(findings, tunnelID, ignored))[f]
                        == if FindingRef(f.code, tunnelID, Lower(f.hostname)) in ignored then 0 else multiset(findings)[f]
  {
    if findings != [] {
      VisibleCount(findings[..|findings| - 1], tunnelID, ignored);
      assert findings == findings[..|findings| - 1] + [findings[|findings| - 1]];
      hide Lower;
    }
  }

  lemma {:induction false} NothingMuted(findings: seq<Finding>, tunnelID: string, ignored: set<FindingRef>)
    requires forall f :: f in findings ==> !Muted(f, tunnelID, ignored)
    ensures Visible(findings, tunnelID, ignored) == findings
  {
    if findings != [] {
      var init, f := findings[..|findings| - 1], findings[|findings| - 1];
      assert f in findings;
      NothingMuted(init, tunnelID, ignored);
    }
  }

  // ---- the dashboard side ----

  // A muted coverage finding counts like a configured exception.
  function PublicHosts(configured: set<string>, ignored: set<FindingRef>): set<string> {
    configured + (set ref | ref in ignored && ref.code == ACCESS_UNPROTECTED && ref.hostname != "" :: ref.hostname)
  }

  method EffectivePublic(configured: set<string>, ignored: set<FindingRef>) returns (out: set<string>)
    ensures out == PublicHosts(configured, ignored)
    ensures forall h :: h in out <==>
      h in configured || (h != "" && exists ref :: ref in ignored && ref.code == "access_unprotected" && ref.hostname == h)
  {
    out := configured;
    var rest := ignored;
    while rest != {}
      invariant rest <= ignored && out == PublicHosts(configured, ignored - rest)
      decreases rest
    {
      var ref :| ref in rest;
      rest := rest - {ref};
      if ref.code == ACCESS_UNPROTECTED && ref.hostname != "" {
        out := out + {ref.hostname};
      }
    }
    assert ignored - rest == ignored;
  }

  // The rules loaded per tunnel.
  ghost predicate Grouped(groups: map<string, seq<IngressRule>>, table: seq<IngressRule>) {
    && (forall r :: r in table ==> r.tunnelID in groups)
    && (forall id :: id in groups ==> groups[id] == OfTunnels(table, {id}))
  }

  // Splits what no application covers into genuine gaps and what is public on purpose; the groups
  // come in any order.
  method Unprotected(available: bool, apps: seq<AccessApp>, groups: map<string, seq<IngressRule>>,
                     expectedPublic: set<string>, ghost table: seq<IngressRule>)
    returns (unexpected: seq<IngressRule>, expected: seq<IngressRule>)
    requires Grouped(groups, table)
    ensures !available ==> unexpected == expected == []
    ensures available ==> multiset(unexpected) == multiset(Side(table, ProtectedHosts(apps), expectedPublic, false))
    ensures available ==> multiset(expected) == multiset(Side(table, ProtectedHosts(apps), expectedPublic, true))
    ensures available ==> Sides(unexpected, table, apps, expectedPublic, false)
    ensures available ==> Sides(expected, table, apps, expectedPublic, true)
    ensures available ==>
      multiset(Coverables(table)) == multiset(CoveredRules(table, ProtectedHosts(apps)))
        + multiset(unexpected) + multiset(expected)
  {
    unexpected, expected := [], [];
    if !available {
      return;
    }
    var covered := CoveredHosts(apps);
    ghost var gaps, public := Side(table, covered, expectedPublic, false), Side(table, covered, expectedPublic, true);
    var rest := groups.Keys;
    NoTunnels(gaps);
    NoTunnels(public);
    assert groups.Keys - rest == {} && Gathered([], gaps, {}) && Gathered([], public, {});
    hide Side, OfTunnels, Uncovered, ProtectedHosts, Gathered;
    while rest != {}
      invariant rest <= groups.Keys
      invariant Gathered(unexpected, gaps, groups.Keys - rest)
      invariant Gathered(expected, public, groups.Keys - rest)
      decreases rest
    {
      var id :| id in rest;
      var here, there := SplitRules(groups[id], covered, expectedPublic);
      SideOfTunnels(table, {id}, covered, expectedPublic, false);
      SideOfTunnels(table, {id}, covered, expectedPublic, true);
      GatheredStep(unexpected, here, gaps, groups.Keys - rest, id);
      GatheredStep(expected, there, public, groups.Keys - rest, id);
      assert groups.Keys - (rest - {id}) == groups.Keys - rest + {id};
      unexpected, expected := unexpected + here, expected + there;
      rest := rest - {id};
    }
    SideMembers(table, covered, expectedPublic, false);
    SideMembers(table, covered, expectedPublic, true);
    ExactlyOne(table, covered, expectedPublic);
    SidesMean(table, apps, expectedPublic, false);
    SidesMean(table, apps, expectedPublic, true);
    assert groups.Keys - rest == groups.Keys;
    GatheredAll(unexpected, gaps, groups.Keys);
    GatheredAll(expected, public, groups.Keys);
  }

  // The rules gathered so far are those of the given tunnels.
  predicate Gathered(got: seq<IngressRule>, all: seq<IngressRule>, ids: set<string>) {
    multiset(got) == multiset(OfTunnels(all, ids))
  }

  lemma GatheredStep(got: seq<IngressRule>, more: seq<IngressRule>, all: seq<IngressRule>, ids: set<string>, id: string)
    requires Gathered(got, all, ids) && id !in ids && more == OfTunnels(all, {id})
    ensures Gathered(got + more, all, ids + {id})
  {
    OneMoreTunnel(all, ids, id);
  }

  lemma GatheredAll(got: seq<IngressRule>, all: seq<IngressRule>, ids: set<string>)
    requires Gathered(got, all, ids) && forall r :: r in all ==> r.tunnelID in ids
    ensures multiset(got) == multiset(all)
  {
    AllTunnels(all, ids);
  }

  method SplitRules(rules: seq<IngressRule>, covered: set<string>, expectedPublic: set<string>)
    returns (unexpected: seq<IngressRule>, expected: seq<IngressRule>)
    ensures unexpected == Side(rules, covered, expectedPublic, false)
    ensures expected == Side(rules, covered, expectedPublic, true)
  {
    unexpected, expected := [], [];
    for i := 0 to |rules|
      invariant unexpected == Side(rules[..i], covered, expectedPublic, false)
      invariant expected == Side(rules[..i], covered, expectedPublic, true)
    {
      assert rules[..i + 1][..i] == rules[..i];
      if rules[i].hostname == "" || !IsHTTPService(rules[i].service) {
        continue;
      }
      var host := Lower(rules[i].hostname);
      if host in covered {
        continue;
      }
      if host in expectedPublic {
        expected := expected + [rules[i]];
        continue;
      }
      unexpected := unexpected + [rules[i]];
    }
    assert rules[..|rules|] == rules;
  }

  lemma {:induction false} NoTunnels(rules: seq<IngressRule>)
    ensures OfTunnels(rules, {}) == []
  {
    if rules != [] {
      NoTunnels(rules[..|rules| - 1]);
    }
  }

  lemma {:induction false} AllTunnels(rules: seq<IngressRule>, ids: set<string>)
    requires forall r :: r in rules ==> r.tunnelID in ids
    ensures OfTunnels(rules, ids) == rules
  {
    if rules != [] {
      assert rules[|rules| - 1] in rules;
      AllTunnels(rules[..|rules| - 1], ids);
    }
  }

  lemma {:induction false} OfTunnelsMembers(rules: seq<IngressRule>, ids: set<string>)
    ensures forall r :: r in OfTunnels(rules, ids) <==> r in rules && r.tunnelID in ids
  {
    if rules != [] {
      OfTunnelsMembers(rules[..|rules| - 1], ids);
      assert rules == rules[..|rules| - 1] + [rules[|rules| - 1]];
    }
  }

  lemma {:induction false} SideMembers(rules: seq<IngressRule>, covered: set<string>, expected: set<string>,
                                       public: bool)
    ensures forall r :: r in Side(rules, covered, expected, public) <==> r in rules && Uncovered(r, covered, expected, public)
  {
    if rules != [] {
      SideMembers(rules[..|rules| - 1], covered, expected, public);
      assert rules == rules[..|rules| - 1] + [rules[|rules| - 1]];
    }
  }

  lemma {:induction false} OneMoreTunnel(rules: seq<IngressRule>, ids: set<string>, id: string)
    requires id !in ids
    ensures multiset(OfTunnels(rules, ids + {id})) == multiset(OfTunnels(rules, ids)) + multiset(OfTunnels(rules, {id}))
  {
    if rules != [] {
      OneMoreTunnel(rules[..|rules| - 1], ids, id);
    }
  }

  // The uncovered rules of some tunnels are those tunnels' share of all.
  lemma {:induction false} SideOfTunnels(rules: seq<IngressRule>, ids: set<string>, covered: set<string>,
                                         expected: set<string>,
                                         public: bool)
    ensures Side(OfTunnels(rules, ids), covered, expected, public) == OfTunnels(Side(rules, covered, expected, public), ids)
  {
    if rules != [] {
      var init, r := rules[..|rules| - 1], rules[|rules| - 1];
      SideOfTunnels(init, ids, covered, expected, public);
      var own, side := OfTunnels(init, ids), Side(init, covered, expected, public);
      assert OfTunnels(rules, ids) == if r.tunnelID in ids then own + [r] else own;
      assert Side(rules, covered, expected, public) == if Uncovered(r, covered, expected, public) then side + [r] else side;
      SideAppend(own, r, covered, expected, public);
      OfTunnelsAppend(side, r, ids);
      hide Side, OfTunnels, Uncovered;
    }
  }

  lemma SideAppend(rules: seq<IngressRule>, r: IngressRule, covered: set<string>, expected: set<string>, public: bool)
    ensures Side(rules + [r], covered, expected, public)
      == Side(rules, covered, expected, public) + (if Uncovered(r, covered, expected, public) then [r] else [])
  {
    assert (rules + [r])[..|rules|] == rules;
  }

  lemma OfTunnelsAppend(rules: seq<IngressRule>, r: IngressRule, ids: set<string>)
    ensures OfTunnels(rules + [r], ids) == OfTunnels(rules, ids) + (if r.tunnelID in ids then [r] else [])
  {
    assert (rules + [r])[..|rules|] == rules;
  }

  // ---- the two computations agree ----

  // The visible coverage findings of every listed tunnel, each with the tunnel it is shown under.
  function AllVisible(tunnels: seq<string>, table: seq<IngressRule>, apps: seq<AccessApp>, expected: set<string>,
                      ignored: set<FindingRef>): seq<(string, Finding)>
  {
    if tunnels == [] then []
    else
      var id := tunnels[|tunnels| - 1];
      var findings := FindingsOf(Side(OfTunnels(table, {id}), ProtectedHosts(apps), expected, false));
      AllVisible(tunnels[..|tunnels| - 1], table, apps, expected, ignored) + Tagged(id, Visible(findings, id, ignored))
  }

  function Tagged(id: string, findings: seq<Finding>): seq<(string, Finding)> {
    seq(|findings|, i requires 0 <= i < |findings| => (id, findings[i]))
  }

  // A gap and the finding it stands for.
  function AsFindings(gaps: seq<IngressRule>): seq<(string, Finding)> {
    seq(|gaps|, i requires 0 <= i < |gaps| => (gaps[i].tunnelID, Finding(ACCESS_UNPROTECTED, gaps[i].hostname)))
  }

  // Muting a coverage finding already moves its host to the expected side, so no gap is muted.
  lemma GapsAreVisible(gaps: seq<IngressRule>, id: string, covered: set<string>, configured: set<string>,
                       ignored: set<FindingRef>)
    requires forall r :: r in gaps ==> r.tunnelID == id && Uncovered(r, covered, PublicHosts(configured, ignored), false)
    ensures Tagged(id, Visible(FindingsOf(gaps), id, ignored)) == AsFindings(gaps)
  {
    var findings := FindingsOf(gaps);
    forall f | f in findings ensures !Muted(f, id, ignored) {
      var i :| 0 <= i < |findings| && findings[i] == f;
      assert gaps[i] in gaps && f.hostname == gaps[i].hostname;
      var ref := FindingRef(f.code, id, Lower(f.hostname));
      assert ref in ignored ==> ref.hostname in PublicHosts(configured, ignored);
    }
    NothingMuted(findings, id, ignored);
    forall i | 0 <= i < |gaps| ensures gaps[i].tunnelID == id {
      assert gaps[i] in gaps;
    }
  }

  lemma VisibleStep(init: seq<string>, id: string, table: seq<IngressRule>, apps: seq<AccessApp>, expected: set<string>,
                    ignored: set<FindingRef>)
    ensures AllVisible(init + [id], table, apps, expected, ignored) == AllVisible(init, table, apps, expected, ignored)
      + Tagged(id, Visible(FindingsOf(Side(OfTunnels(table, {id}), ProtectedHosts(apps), expected, false)), id, ignored))
  {
    assert (init + [id])[..|init|] == init;
  }

  function Named(tunnels: seq<string>): set<string> {
    set id | id in tunnels
  }

  // One more listed tunnel shows exactly its own gaps.
  lemma OwnGapsShown(id: string, table: seq<IngressRule>, covered: set<string>, configured: set<string>,
                     ignored: set<FindingRef>)
    ensures var expected := PublicHosts(configured, ignored);
      Tagged(id, Visible(FindingsOf(Side(OfTunnels(table, {id}), covered, expected, false)), id, ignored))
        == AsFindings(OfTunnels(Side(table, covered, expected, false), {id}))
  {
    var expected := PublicHosts(configured, ignored);
    hide Side, OfTunnels, Visible, FindingsOf, AsFindings, Tagged, PublicHosts;
    SideOfTunnels(table, {id}, covered, expected, false);
    OfTunnelsMembers(Side(table, covered, expected, false), {id});
    SideMembers(table, covered, expected, false);
    GapsAreVisible(OfTunnels(Side(table, covered, expected, false), {id}), id, covered, configured, ignored);
  }

  // Visible findings summed over the listed tunnels, after any set of mutes: the gaps of those tunnels.
  lemma {:induction false} VisibleAreListedGaps(tunnels: seq<string>, table: seq<IngressRule>, apps: seq<AccessApp>,
                                                configured: set<string>, ignored: set<FindingRef>)
    requires forall i, j :: 0 <= i < j < |tunnels| ==> tunnels[i] != tunnels[j]
    ensures var expected := PublicHosts(configured, ignored);
      multiset(AllVisible(tunnels, table, apps, expected, ignored))
        == multiset(AsFindings(OfTunnels(Side(table, ProtectedHosts(apps), expected, false), Named(tunnels))))
  {
    var expected, covered := PublicHosts(configured, ignored), ProtectedHosts(apps);
    if tunnels == [] {
      NoTunnels(Side(table, covered, expected, false));
      assert Named(tunnels) == {};
    } else {
      var init, id := tunnels[..|tunnels| - 1], tunnels[|tunnels| - 1];
      assert tunnels == init + [id];
      assert Named(tunnels) == Named(init) + {id};
      hide AllVisible, Side, OfTunnels, Visible, FindingsOf, AsFindings, Tagged, ProtectedHosts, PublicHosts;
      VisibleAreListedGaps(init, table, apps, configured, ignored);
      VisibleStep(init, id, table, apps, expected, ignored);
      OwnGapsShown(id, table, covered, configured, ignored);
      OneMoreTunnelAsFindings(Side(table, covered, expected, false), Named(init), id);
    }
  }

  lemma {:induction false} OneMoreTunnelAsFindings(rules: seq<IngressRule>, ids: set<string>, id: string)
    requires id !in ids
    ensures multiset(AsFindings(OfTunnels(rules, ids + {id})))
      == multiset(AsFindings(OfTunnels(rules, ids))) + multiset(AsFindings(OfTunnels(rules, {id})))
  {
    if rules != [] {
      var init, r := rules[..|rules| - 1], rules[|rules| - 1];
      OneMoreTunnelAsFindings(init, ids, id);
      OneMoreRule(init, r, ids);
      OneMoreRule(init, r, {id});
      OneMoreRule(init, r, ids + {id});
      assert rules == init + [r];
      hide OfTunnels, AsFindings;
    }
  }

  lemma OneMoreRule(init: seq<IngressRule>, r: IngressRule, ids: set<string>)
    ensures AsFindings(OfTunnels(init + [r], ids)) == AsFindings(OfTunnels(init, ids))
      + (if r.tunnelID in ids then [(r.tunnelID, Finding(ACCESS_UNPROTECTED, r.hostname))] else [])
  {
    OfTunnelsAppend(init, r, ids);
    var own := OfTunnels(init, ids);
    hide OfTunnels;
    if r.tunnelID in ids {
      assert AsFindings(own + [r]) == AsFindings(own) + [(r.tunnelID, Finding(ACCESS_UNPROTECTED, r.hostname))];
    } else {
      assert own + [] == own;
    }
  }

  // The findings shown and the dashboard's unprotected rules correspond one for one, after any set of
  // mutes, if and only if no gap belongs to a tunnel that is not stored.
  lemma CoverageAgreesIff(tunnels: seq<string>, table: seq<IngressRule>, apps: seq<AccessApp>,
                          configured: set<string>, ignored: set<FindingRef>)
    requires forall i, j :: 0 <= i < j < |tunnels| ==> tunnels[i] != tunnels[j]
    ensures var expected := PublicHosts(configured, ignored);
      var gaps := Side(table, ProtectedHosts(apps), expected, false);
      multiset(AllVisible(tunnels, table, apps, expected, ignored)) == multiset(AsFindings(gaps))
        <==> forall r :: r in gaps ==> r.tunnelID in tunnels
  {
    var expected, covered := PublicHosts(configured, ignored), ProtectedHosts(apps);
    var gaps, ids := Side(table, covered, expected, false), Named(tunnels);
    VisibleAreListedGaps(tunnels, table, apps, configured, ignored);
    var listed := OfTunnels(gaps, ids);
    if forall r :: r in gaps ==> r.tunnelID in tunnels {
      AllTunnels(gaps, ids);
    } else {
      var r :| r in gaps && r.tunnelID !in tunnels;
      UnlistedGapIsMissing(gaps, ids, r);
    }
  }

  lemma UnlistedGapIsMissing(gaps: seq<IngressRule>, ids: set<string>, r: IngressRule)
    requires r in gaps && r.tunnelID !in ids
    ensures multiset(AsFindings(OfTunnels(gaps, ids))) != multiset(AsFindings(gaps))
  {
    var listed := OfTunnels(gaps, ids);
    OfTunnelsMembers(gaps, ids);
    var k :| 0 <= k < |gaps| && gaps[k] == r;
    var tagged := AsFindings(gaps)[k];
    assert tagged in multiset(AsFindings(gaps));
    forall i | 0 <= i < |listed| ensures AsFindings(listed)[i] != tagged {
      assert listed[i] in listed;
    }
    assert tagged !in AsFindings(listed);
  }

  // A gap on a tunnel that is not stored counts in the totals and is shown under no tunnel.
  lemma OrphanIsCountedOnly(r: IngressRule)
    requires Coverable(r)
    ensures AllVisible([], [r], [], PublicHosts({}, {}), {}) == []
    ensures Side([r], ProtectedHosts([]), PublicHosts({}, {}), false) == [r]
  {
    assert [r][..0] == [];
  }

  // Saving and syncing keep every ingress row on a stored tunnel, so the totals agree.
  lemma NoOrphansAgree(table: Table, tunnels: seq<string>, rules: seq<IngressRule>, apps: seq<AccessApp>,
                       configured: set<string>, ignored: set<FindingRef>)
    requires NoOrphans(rules, table)
    requires forall id :: id in table <==> id in tunnels
    requires forall i, j :: 0 <= i < j < |tunnels| ==> tunnels[i] != tunnels[j]
    ensures var expected := PublicHosts(configured, ignored);
      |AllVisible(tunnels, rules, apps, expected, ignored)| == |Side(rules, ProtectedHosts(apps), expected, false)|
  {
    var expected := PublicHosts(configured, ignored);
    var gaps := Side(rules, ProtectedHosts(apps), expected, false);
    SideMembers(rules, ProtectedHosts(apps), expected, false);
    CoverageAgreesIff(tunnels, rules, apps, configured, ignored);
    assert |multiset(AllVisible(tunnels, rules, apps, expected, ignored))| == |multiset(AsFindings(gaps))|;
  }
}
