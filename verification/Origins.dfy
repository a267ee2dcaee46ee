// Where requests came from: rows folded on collection, by the upsert, and again for display.
module Origins {
  import opened Clock
  import opened Text

  datatype Source = Http | AccessLogin

  datatype Key = Key(source: Source, hostname: string, path: string, country: string)

  // A row of request_origins.
  datatype Row = Row(key: Key, allowed: int, denied: int, requests: int, sampled: bool)

  datatype Counts = Counts(allowed: int, denied: int, requests: int, sampled: bool)

  const Nothing := Counts(0, 0, 0, false)

  function CountsOf(r: Row): Counts {
    Counts(r.allowed, r.denied, r.requests, r.sampled)
  }

  function Plus(a: Counts, b: Counts): Counts {
    Counts(a.allowed + b.allowed, a.denied + b.denied, a.requests + b.requests, a.sampled || b.sampled)
  }

  // A selection of rows: by key, by country, or both.
  datatype Selection = Selection(key: Option<Key>, countries: Option<set<string>>) {
    predicate Matches(k: Key) {
      && (key.Some? ==> k == key.value)
      && (countries.Some? ==> k.country in countries.value)
    }
  }

  const Everything := Selection(None, None)

  function Of(country: string): Selection { Selection(None, Some({country})) }

  // The reference meaning of every fold below: the sum over the selected rows.
  function Sum(rows: seq<Row>, sel: Selection): Counts {
    if rows == [] then Nothing
    else
      var r := rows[|rows| - 1];
      var before := Sum(rows[..|rows| - 1], sel);
      if sel.Matches(r.key) then Plus(before, CountsOf(r)) else before
  }

  predicate Balanced(rows: seq<Row>) {
    forall r :: r in rows ==> r.allowed + r.denied == r.requests
  }

  predicate UniqueKeys(rows: seq<Row>) {
    forall i, j :: 0 <= i < j < |rows| ==> rows[i].key != rows[j].key
  }

  function Countries(rows: seq<Row>): set<string> {
    set r | r in rows :: r.key.country
  }

  // ---- facts about sums ----

  lemma SumAppend(rows: seq<Row>, r: Row, sel: Selection)
    ensures Sum(rows + [r], sel) == if sel.Matches(r.key) then Plus(Sum(rows, sel), CountsOf(r)) else Sum(rows, sel)
  {
    assert (rows + [r])[..|rows|] == rows;
  }

  lemma {:induction false} SumConcat(a: seq<Row>, b: seq<Row>, sel: Selection)
    ensures Sum(a + b, sel) == Plus(Sum(a, sel), Sum(b, sel))
  {
    if b == [] {
      assert a + b == a;
    } else {
      SumConcat(a, b[..|b| - 1], sel);
      SumAppend(a + b[..|b| - 1], b[|b| - 1], sel);
      assert a + b == a + b[..|b| - 1] + [b[|b| - 1]];
    }
  }

  lemma SumMovesOut(rows: seq<Row>, k: nat, sel: Selection)
    requires k < |rows|
    ensures Sum(rows, sel) == Sum(rows[..k] + rows[k + 1..] + [rows[k]], sel)
  {
    var r := rows[k];
    assert rows == rows[..k] + [r] + rows[k + 1..];
    SumConcat(rows[..k] + [r], rows[k + 1..], sel);
    SumConcat(rows[..k], [r], sel);
    SumConcat(rows[..k], rows[k + 1..], sel);
    SumConcat(rows[..k] + rows[k + 1..], [r], sel);
  }

  // Sums do not depend on the order of the rows.
  lemma {:induction false} SumPermutes(a: seq<Row>, b: seq<Row>, sel: Selection)
    requires multiset(a) == multiset(b)
    ensures Sum(a, sel) == Sum(b, sel)
    decreases |a|
  {
    hide Sum;
    if a == [] {
      assert |multiset(b)| == 0;
    } else {
      var init, r := a[..|a| - 1], a[|a| - 1];
      assert a == init + [r];
      assert r in multiset(b);
      var k :| 0 <= k < |b| && b[k] == r;
      var rest := b[..k] + b[k + 1..];
      assert b == b[..k] + [r] + b[k + 1..];
      assert multiset(init) == multiset(a) - multiset{r} == multiset(rest);
      SumPermutes(init, rest, sel);
      SumMovesOut(b, k, sel);
      SumAppend(rest, r, sel);
      SumAppend(init, r, sel);
    }
  }

  // Adding counts to a row already in the table is the same as appending a row of its own.
  lemma {:induction false} SumUpdate(rows: seq<Row>, j: nat, added: Row, sel: Selection)
    requires j < |rows| && rows[j].key == added.key
    ensures Sum(rows[j := Merged(rows[j], added)], sel) == Sum(rows + [added], sel)
  {
    SumAppend(rows, added, sel);
    var init, r := rows[..|rows| - 1], rows[|rows| - 1];
    var updated := rows[j := Merged(rows[j], added)];
    if j < |rows| - 1 {
      SumUpdate(init, j, added, sel);
      SumAppend(init, added, sel);
      assert updated[..|rows| - 1] == init[j := Merged(init[j], added)];
    } else {
      assert updated[..|rows| - 1] == init;
    }
  }

  function Merged(r: Row, added: Row): Row {
    Row(r.key, r.allowed + added.allowed, r.denied + added.denied, r.requests + added.requests,
        r.sampled || added.sampled)
  }

  lemma {:induction false} SumNothing(rows: seq<Row>, key: Option<Key>)
    ensures Sum(rows, Selection(key, Some({}))) == Nothing
  {
    if rows != [] {
      SumNothing(rows[..|rows| - 1], key);
    }
  }

  lemma {:induction false} SumOneMoreCountry(rows: seq<Row>, key: Option<Key>, seen: set<string>, c: string)
    requires c !in seen
    ensures Sum(rows, Selection(key, Some(seen + {c})))
      == Plus(Sum(rows, Selection(key, Some(seen))), Sum(rows, Selection(key, Some({c}))))
  {
    if rows != [] {
      SumOneMoreCountry(rows[..|rows| - 1], key, seen, c);
    }
  }

  lemma {:induction false} SumAllCountries(rows: seq<Row>, key: Option<Key>, all: set<string>)
    requires forall r :: r in rows ==> r.key.country in all
    ensures Sum(rows, Selection(key, Some(all))) == Sum(rows, Selection(key, None))
  {
    if rows != [] {
      assert rows[|rows| - 1] in rows;
      SumAllCountries(rows[..|rows| - 1], key, all);
    }
  }

  lemma {:induction false} SumAbsent(rows: seq<Row>, sel: Selection)
    requires forall r :: r in rows ==> !sel.Matches(r.key)
    ensures Sum(rows, sel) == Nothing
  {
    if rows != [] {
      assert rows[|rows| - 1] in rows;
      SumAbsent(rows[..|rows| - 1], sel);
    }
  }

  // With one row per key, selecting a key reads that row.
  lemma {:induction false} SumByKey(rows: seq<Row>, j: nat)
    requires UniqueKeys(rows) && j < |rows|
    ensures Sum(rows, Selection(Some(rows[j].key), None)) == CountsOf(rows[j])
  {
    var init, sel := rows[..|rows| - 1], Selection(Some(rows[j].key), None);
    if j < |rows| - 1 {
      SumByKey(init, j);
    } else {
      SumAbsent(init, sel);
    }
  }

  lemma {:induction false} BalancedSum(rows: seq<Row>, sel: Selection)
    requires Balanced(rows)
    ensures Sum(rows, sel).allowed + Sum(rows, sel).denied == Sum(rows, sel).requests
  {
    if rows != [] {
      assert rows[|rows| - 1] in rows;
      BalancedSum(rows[..|rows| - 1], sel);
    }
  }

  // ---- collection ----

  datatype HttpGroup = HttpGroup(country: string, hostname: string, path: string, status: int, requests: int,
                                 sampled: bool)

  datatype LoginGroup = LoginGroup(country: string, succeeded: bool, attempts: int)

  // The country a code stands for; unplaced traffic is named.
  function NormalizeCountry(code: string): string {
    var c := Upper(Trim(code));
    if c in {"", "XX", "T1"} then "XX" else c
  }

  // A group as a row of its own.
  function HttpRow(g: HttpGroup): Row {
    var refused := g.status >= 400;
    Row(Key(Http, Lower(g.hostname), g.path, NormalizeCountry(g.country)),
        if refused then 0 else g.requests, if refused then g.requests else 0, g.requests, g.sampled)
  }

  function LoginRow(g: LoginGroup): Row {
    Row(Key(AccessLogin, "", "", NormalizeCountry(g.country)),
        if g.succeeded then g.attempts else 0, if g.succeeded then 0 else g.attempts, g.attempts, false)
  }

  function ServedRows(groups: seq<HttpGroup>, served: set<string>): seq<Row> {
    if groups == [] then []
    else
      var g := groups[|groups| - 1];
      ServedRows(groups[..|groups| - 1], served) + (if Lower(g.hostname) in served then [HttpRow(g)] else [])
  }

  function LoginRows(groups: seq<LoginGroup>): seq<Row> {
    if groups == [] then [] else LoginRows(groups[..|groups| - 1]) + [LoginRow(groups[|groups| - 1])]
  }

  // ---- the sources, field by field ----

  // Sums add up field by field over the selected rows; one sampled row makes the sum sampled.
  lemma SumFields(rows: seq<Row>, r: Row, sel: Selection)
    ensures var was, now, hit := Sum(rows, sel), Sum(rows + [r], sel), sel.Matches(r.key);
      && now.allowed == was.allowed + (if hit then r.allowed else 0)
      && now.denied == was.denied + (if hit then r.denied else 0)
      && now.requests == was.requests + (if hit then r.requests else 0)
      && (now.sampled <==> was.sampled || (hit && r.sampled))
    ensures Sum([], sel) == Counts(0, 0, 0, false)
  {
    SumAppend(rows, r, sel);
  }

  // The country a group's code stands for: traffic the edge could not place has one name.
  predicate StandsFor(country: string, code: string) {
    var c := Upper(Trim(code));
    country == if c == "" || c == "T1" then "XX" else c
  }

  // An error status is a refusal, anything else went through.
  predicate IsHttpRow(r: Row, g: HttpGroup) {
    && r.key.source == Http && r.key.hostname == Lower(g.hostname) && r.key.path == g.path
    && StandsFor(r.key.country, g.country)
    && r.requests == g.requests && r.sampled == g.sampled
    && (if g.status < 400 then r.allowed == g.requests && r.denied == 0 else r.allowed == 0 && r.denied == g.requests)
  }

  predicate IsLoginRow(r: Row, g: LoginGroup) {
    && r.key.source == AccessLogin && r.key.hostname == "" && r.key.path == "" && StandsFor(r.key.country, g.country)
    && r.requests == g.attempts && !r.sampled
    && (if g.succeeded then r.allowed == g.attempts && r.denied == 0 else r.allowed == 0 && r.denied == g.attempts)
  }

  // One row per group whose hostname is served, in order.
  ghost predicate RowPerServed(rows: seq<Row>, groups: seq<HttpGroup>, served: set<string>) {
    exists at: seq<nat> :: ServedAt(at, groups, served) && HttpRowsAt(rows, at, groups)
  }

  ghost predicate ServedAt(at: seq<nat>, groups: seq<HttpGroup>, served: set<string>) {
    && (forall i, j :: 0 <= i < j < |at| ==> at[i] < at[j])
    && (forall k: nat :: k in at <==> k < |groups| && Lower(groups[k].hostname) in served)
  }

  ghost predicate HttpRowsAt(rows: seq<Row>, at: seq<nat>, groups: seq<HttpGroup>) {
    |rows| == |at| && forall i :: 0 <= i < |rows| ==> at[i] < |groups| && IsHttpRow(rows[i], groups[at[i]])
  }

  lemma {:induction false} ServedRowsMean(groups: seq<HttpGroup>, served: set<string>) returns (at: seq<nat>)
    ensures ServedAt(at, groups, served) && HttpRowsAt(ServedRows(groups, served), at, groups)
  {
    if groups == [] {
      return [];
    }
    var init, g := groups[..|groups| - 1], groups[|groups| - 1];
    assert groups == init + [g];
    var rows := ServedRows(init, served);
    at := ServedRowsMean(init, served);
    HttpRowMeans(g);
    ServedStep(init, g, served);
    hide ServedRows, HttpRow, Lower, IsHttpRow, ServedAt, HttpRowsAt;
    ServedAtStep(at, init, g, served);
    HttpRowsStep(rows, at, init, g, served, HttpRow(g));
    if Lower(g.hostname) in served {
      at := at + [|init|];
    }
  }

  lemma ServedStep(init: seq<HttpGroup>, g: HttpGroup, served: set<string>)
    ensures ServedRows(init + [g], served)
      == if Lower(g.hostname) in served then ServedRows(init, served) + [HttpRow(g)] else ServedRows(init, served)
  {
    assert (init + [g])[..|init|] == init;
    assert ServedRows(init, served) + [] == ServedRows(init, served);
    hide HttpRow, Lower;
  }

  lemma ServedAtStep(at: seq<nat>, init: seq<HttpGroup>, g: HttpGroup, served: set<string>)
    requires ServedAt(at, init, served)
    ensures ServedAt(if Lower(g.hostname) in served then at + [|init|] else at, init + [g], served)
  {
    hide Lower;
    forall i | 0 <= i < |at| ensures at[i] < |init| {
      assert at[i] in at;
    }
  }

  lemma HttpRowsStep(rows: seq<Row>, at: seq<nat>, init: seq<HttpGroup>, g: HttpGroup, served: set<string>, r: Row)
    requires ServedAt(at, init, served) && HttpRowsAt(rows, at, init) && IsHttpRow(r, g)
    ensures HttpRowsAt(rows, at, init + [g])
    ensures HttpRowsAt(rows + [r], at + [|init|], init + [g])
  {
    hide IsHttpRow, ServedAt;
  }

  lemma HttpRowMeans(g: HttpGroup)
    ensures IsHttpRow(HttpRow(g), g)
  {
  }

  lemma {:induction false} LoginRowsMean(groups: seq<LoginGroup>)
    ensures LoginRowPerGroup(LoginRows(groups), groups)
  {
    if groups != [] {
      var init, g := groups[..|groups| - 1], groups[|groups| - 1];
      LoginRowsMean(init);
      LoginRowMeans(g);
      assert LoginRows(groups) == LoginRows(init) + [LoginRow(g)];
      hide LoginRows, LoginRow, IsLoginRow;
    }
  }

  lemma LoginRowMeans(g: LoginGroup)
    ensures IsLoginRow(LoginRow(g), g)
  {
  }

  ghost predicate LoginRowPerGroup(rows: seq<Row>, groups: seq<LoginGroup>) {
    |rows| == |groups| && forall i :: 0 <= i < |rows| ==> IsLoginRow(rows[i], groups[i])
  }

  // What got through of the served traffic, and what was refused.
  function HttpTotal(groups: seq<HttpGroup>, served: set<string>, refused: bool): int {
    if groups == [] then 0
    else
      var g := groups[|groups| - 1];
      HttpTotal(groups[..|groups| - 1], served, refused)
      + (if Lower(g.hostname) in served && (g.status >= 400) == refused then g.requests else 0)
  }

  function LoginsTotal(groups: seq<LoginGroup>, refused: bool): int {
    if groups == [] then 0
    else
      var g := groups[|groups| - 1];
      LoginsTotal(groups[..|groups| - 1], refused) + (if g.succeeded == !refused then g.attempts else 0)
  }

  lemma {:induction false} ServedOutcomes(groups: seq<HttpGroup>, served: set<string>)
    ensures var sum := Sum(ServedRows(groups, served), Everything);
      sum.allowed == HttpTotal(groups, served, false) && sum.denied == HttpTotal(groups, served, true)
  {
    if groups != [] {
      var init, g := groups[..|groups| - 1], groups[|groups| - 1];
      var rows := ServedRows(init, served);
      ServedOutcomes(init, served);
      SumFields(rows, HttpRow(g), Everything);
      assert rows + [] == rows;
      hide Sum, NormalizeCountry, Lower;
    }
  }

  lemma {:induction false} LoginOutcomes(groups: seq<LoginGroup>)
    ensures var sum := Sum(LoginRows(groups), Everything);
      sum.allowed == LoginsTotal(groups, false) && sum.denied == LoginsTotal(groups, true)
  {
    if groups != [] {
      var init := groups[..|groups| - 1];
      LoginOutcomes(init);
      SumFields(LoginRows(init), LoginRow(groups[|groups| - 1]), Everything);
      hide Sum, NormalizeCountry;
    }
  }

  method ToHTTPOrigins(groups: seq<HttpGroup>, served: set<string>) returns (out: seq<Row>)
    ensures out == ServedRows(groups, served) && Balanced(out)
    ensures RowPerServed(out, groups, served)
  {
    ghost var at := ServedRowsMean(groups, served);
    hide ServedAt, HttpRowsAt;
    out := [];
    for i := 0 to |groups|
      invariant out == ServedRows(groups[..i], served) && Balanced(out)
    {
      assert groups[..i + 1][..i] == groups[..i];
      var g := groups[i];
      var host := Lower(g.hostname);
      if host !in served {
        continue;
      }
      var origin := Row(Key(Http, host, g.path, NormalizeCountry(g.country)), 0, 0, g.requests, g.sampled);
      if g.status >= 400 {
        origin := origin.(denied := g.requests);
      } else {
        origin := origin.(allowed := g.requests);
      }
      out := out + [origin];
    }
    assert groups[..|groups|] == groups;
  }

  // Every country's entry holds the sums of its rows.
  ghost predicate Folds(m: map<string, Counts>, rows: seq<Row>) {
    && m.Keys == Countries(rows)
    && forall c :: c in m ==> m[c] == Sum(rows, Of(c))
  }

  lemma FoldsNothing()
    ensures Folds(map[], [])
  {
  }

  lemma FoldsStep(m: map<string, Counts>, rows: seq<Row>, r: Row)
    requires Folds(m, rows)
    ensures Folds(m[r.key.country := Plus(if r.key.country in m then m[r.key.country] else Nothing, CountsOf(r))], rows + [r])
  {
    var c := r.key.country;
    assert Countries(rows + [r]) == Countries(rows) + {c};
    forall d ensures Sum(rows + [r], Of(d)) == if d == c then Plus(Sum(rows, Of(d)), CountsOf(r)) else Sum(rows, Of(d)) {
      SumAppend(rows, r, Of(d));
    }
    if c !in m {
      SumAbsent(rows, Of(c));
    }
  }

  // One row per country, whatever order the map yields them in.
  method LoginOrigins(groups: seq<LoginGroup>) returns (out: seq<Row>)
    ensures Balanced(out) && UniqueKeys(out) && Countries(out) == Countries(LoginRows(groups))
    ensures forall sel :: Sum(out, sel) == Sum(LoginRows(groups), sel)
    ensures LoginRowPerGroup(LoginRows(groups), groups)
  {
    LoginRowsMean(groups);
    var byCountry: map<string, Counts> := map[];
    assert LoginRows([]) == [] && groups[..0] == [];
    FoldsNothing();
    hide LoginRows, Sum, NormalizeCountry, Folds, LoginRowPerGroup;
    for i := 0 to |groups|
      invariant Folds(byCountry, LoginRows(groups[..i]))
    {
      LoginRowsStep(groups, i);
      byCountry := AddLogin(byCountry, groups[i], LoginRows(groups[..i]));
    }
    assert groups[..|groups|] == groups;
    LoginTotal(groups);
    out := EmitLogins(byCountry, LoginRows(groups));
  }

  // Adds one group to its country's entry.
  method AddLogin(byCountry: map<string, Counts>, g: LoginGroup, ghost rows: seq<Row>) returns (m: map<string, Counts>)
    requires Folds(byCountry, rows)
    ensures Folds(m, rows + [LoginRow(g)])
  {
    FoldsStep(byCountry, rows, LoginRow(g));
    hide Folds, Sum, NormalizeCountry;
    var country := NormalizeCountry(g.country);
    var entry := if country in byCountry then byCountry[country] else Nothing;
    entry := entry.(requests := entry.requests + g.attempts);
    if g.succeeded {
      entry := entry.(allowed := entry.allowed + g.attempts);
    } else {
      entry := entry.(denied := entry.denied + g.attempts);
    }
    m := byCountry[country := entry];
  }

  lemma LoginRowsStep(groups: seq<LoginGroup>, i: nat)
    requires i < |groups|
    ensures LoginRows(groups[..i + 1]) == LoginRows(groups[..i]) + [LoginRow(groups[i])]
  {
    assert groups[..i + 1][..i] == groups[..i];
  }

  predicate FromLogins(rows: seq<Row>) {
    forall r :: r in rows ==> r.key == Key(AccessLogin, "", "", r.key.country)
  }

  method EmitLogins(byCountry: map<string, Counts>, ghost raw: seq<Row>) returns (out: seq<Row>)
    requires Folds(byCountry, raw) && FromLogins(raw) && Balanced(raw)
    ensures Balanced(out) && UniqueKeys(out) && Countries(out) == Countries(raw)
    ensures forall sel :: Sum(out, sel) == Sum(raw, sel)
  {
    out := [];
    var rest := byCountry.Keys;
    NoneEmitted(raw);
    assert Countries([]) == {} && byCountry.Keys == Countries(raw);
    assert byCountry.Keys - rest == {};
    hide Emitted, Sum, Countries;
    while rest != {}
      invariant rest <= byCountry.Keys
      invariant Emitted(out, raw, byCountry.Keys - rest)
      invariant Countries(out) == byCountry.Keys - rest
      decreases rest
    {
      var c :| c in rest;
      ghost var seen := byCountry.Keys - rest;
      rest := rest - {c};
      var sums := byCountry[c];
      var row := Row(Key(AccessLogin, "", "", c), sums.allowed, sums.denied, sums.requests, sums.sampled);
      EmittedStep(out, raw, seen, c, row);
      CountriesAppend(out, row);
      assert byCountry.Keys - rest == seen + {c};
      out := out + [row];
    }
    assert byCountry.Keys - rest == Countries(raw);
    EmittedMeans(out, raw, Countries(raw));
    forall sel ensures Sum(out, sel) == Sum(raw, sel) {
      EmittedAll(out, raw, sel);
    }
  }

  lemma NoneEmitted(raw: seq<Row>)
    ensures Emitted([], raw, {})
  {
    forall sel: Selection ensures Sum([], sel) == Sum(raw, Narrowed(sel, {})) {
      SumNothing(raw, sel.key);
      assert Narrowed(sel, {}).countries.value == {};
    }
  }

  lemma EmittedMeans(out: seq<Row>, raw: seq<Row>, seen: set<string>)
    requires Emitted(out, raw, seen)
    ensures Balanced(out) && UniqueKeys(out)
  {
  }

  // The emitted rows are balanced, one per country, and sum like the raw rows of those countries.
  ghost predicate Emitted(out: seq<Row>, raw: seq<Row>, seen: set<string>) {
    && Balanced(out) && UniqueKeys(out) && FromLogins(out)
    && (forall r :: r in out ==> r.key.country in seen)
    && forall sel :: Sum(out, sel) == Sum(raw, Narrowed(sel, seen))
  }

  function Narrowed(sel: Selection, seen: set<string>): Selection {
    Selection(sel.key, Some(if sel.countries.Some? then sel.countries.value * seen else seen))
  }

  lemma EmittedStep(out: seq<Row>, raw: seq<Row>, seen: set<string>, c: string, row: Row)
    requires Emitted(out, raw, seen) && c !in seen && FromLogins(raw) && Balanced(raw)
    requires row.key == Key(AccessLogin, "", "", c) && CountsOf(row) == Sum(raw, Of(c))
    ensures Emitted(out + [row], raw, seen + {c})
  {
    BalancedSum(raw, Of(c));
    hide Sum;
    forall sel ensures Sum(out + [row], sel) == Sum(raw, Narrowed(sel, seen + {c})) {
      SumAppend(out, row, sel);
      NarrowedStep(raw, sel, seen, c);
    }
    EmittedShape(out, seen, c, row);
  }

  lemma EmittedShape(out: seq<Row>, seen: set<string>, c: string, row: Row)
    requires Balanced(out) && UniqueKeys(out) && FromLogins(out) && (forall r :: r in out ==> r.key.country in seen)
    requires c !in seen && row.key == Key(AccessLogin, "", "", c) && row.allowed + row.denied == row.requests
    ensures var more := out + [row];
      Balanced(more) && UniqueKeys(more) && FromLogins(more) && forall r :: r in more ==> r.key.country in seen + {c}
  {
    forall i | 0 <= i < |out| ensures out[i].key != row.key {
      assert out[i] in out;
    }
    BalancedAppend(out, row);
  }

  // One more country adds its rows to the selections that let them through.
  lemma NarrowedStep(raw: seq<Row>, sel: Selection, seen: set<string>, c: string)
    requires FromLogins(raw) && c !in seen
    ensures Sum(raw, Narrowed(sel, seen + {c})) ==
      if sel.Matches(Key(AccessLogin, "", "", c)) then Plus(Sum(raw, Narrowed(sel, seen)), Sum(raw, Of(c)))
      else Sum(raw, Narrowed(sel, seen))
  {
    var had := if sel.countries.Some? then sel.countries.value * seen else seen;
    if sel.countries.Some? && c !in sel.countries.value {
      assert Narrowed(sel, seen + {c}).countries.value == had;
    } else {
      assert Narrowed(sel, seen + {c}).countries.value == had + {c};
      SumOneMoreCountry(raw, sel.key, had, c);
      if sel.Matches(Key(AccessLogin, "", "", c)) {
        LoginCountry(raw, sel.key, c);
      } else {
        SumAbsent(raw, Selection(sel.key, Some({c})));
        assert Plus(Sum(raw, Narrowed(sel, seen)), Nothing) == Sum(raw, Narrowed(sel, seen));
      }
    }
    hide Sum;
  }

  // Login rows of a country all carry that country's one key.
  lemma {:induction false} LoginCountry(raw: seq<Row>, key: Option<Key>, c: string)
    requires FromLogins(raw) && (key.Some? ==> key.value == Key(AccessLogin, "", "", c))
    ensures Sum(raw, Selection(key, Some({c}))) == Sum(raw, Of(c))
  {
    if raw != [] {
      assert raw[|raw| - 1] in raw;
      LoginCountry(raw[..|raw| - 1], key, c);
    }
  }

  lemma EmittedAll(out: seq<Row>, raw: seq<Row>, sel: Selection)
    requires Emitted(out, raw, Countries(raw))
    ensures Sum(out, sel) == Sum(raw, sel)
  {
    NarrowedToAll(raw, sel, Countries(raw));
  }

  lemma {:induction false} NarrowedToAll(rows: seq<Row>, sel: Selection, all: set<string>)
    requires forall r :: r in rows ==> r.key.country in all
    ensures Sum(rows, Narrowed(sel, all)) == Sum(rows, sel)
  {
    if rows != [] {
      assert rows[|rows| - 1] in rows;
      NarrowedToAll(rows[..|rows| - 1], sel, all);
    }
  }

  // ---- the stored summary ----

  class OriginStore {
    var rows: seq<Row>

    constructor ()
      ensures rows == []
    {
      rows := [];
    }

    // Swaps the whole summary; rows with the same key are added up.
    method ReplaceRequestOrigins(origins: seq<Row>)
      modifies this
      ensures UniqueKeys(rows)
      ensures forall sel :: Sum(rows, sel) == Sum(origins, sel)
      ensures Balanced(origins) ==> Balanced(rows)
      ensures Countries(rows) == Countries(origins)
    {
      rows := [];
      for i := 0 to |origins|
        invariant Stands(rows, origins[..i])
      {
        assert origins[..i + 1] == origins[..i] + [origins[i]];
        Upsert(origins[i], origins[..i]);
      }
      assert origins[..|origins|] == origins;
    }

    method Upsert(o: Row, ghost before: seq<Row>)
      requires Stands(rows, before)
      modifies this
      ensures Stands(rows, before + [o])
    {
      for j := 0 to |rows|
        invariant rows == old(rows)
        invariant forall k :: 0 <= k < j ==> rows[k].key != o.key
      {
        if rows[j].key == o.key {
          StandsUpdate(rows, before, j, o);
          rows := rows[j := Merged(rows[j], o)];
          return;
        }
      }
      StandsAppend(rows, before, o);
      rows := rows + [o];
    }
  }

  // The table stands for the rows put into it so far.
  ghost predicate Stands(table: seq<Row>, origins: seq<Row>) {
    && UniqueKeys(table)
    && (forall sel :: Sum(table, sel) == Sum(origins, sel))
    && (Balanced(origins) ==> Balanced(table))
    && Countries(table) == Countries(origins)
  }

  lemma StandsAppend(table: seq<Row>, origins: seq<Row>, o: Row)
    requires Stands(table, origins) && forall k :: 0 <= k < |table| ==> table[k].key != o.key
    ensures Stands(table + [o], origins + [o])
  {
    forall sel ensures Sum(table + [o], sel) == Sum(origins + [o], sel) {
      SumAppend(table, o, sel);
      SumAppend(origins, o, sel);
    }
    CountriesAppend(table, o);
    CountriesAppend(origins, o);
    BalancedAppend(table, o);
    BalancedAppend(origins, o);
  }

  lemma StandsUpdate(table: seq<Row>, origins: seq<Row>, j: nat, o: Row)
    requires Stands(table, origins) && j < |table| && table[j].key == o.key
    ensures Stands(table[j := Merged(table[j], o)], origins + [o])
  {
    var updated := table[j := Merged(table[j], o)];
    forall sel ensures Sum(updated, sel) == Sum(origins + [o], sel) {
      SumUpdate(table, j, o, sel);
      SumAppend(table, o, sel);
      SumAppend(origins, o, sel);
    }
    CountriesAppend(origins, o);
    assert table[j] in table;
    assert Countries(updated) == Countries(table) by {
      forall c ensures c in Countries(updated) <==> c in Countries(table) {
        if c in Countries(table) {
          var r :| r in table && r.key.country == c;
          var k :| 0 <= k < |table| && table[k] == r;
          assert updated[k] in updated;
        }
      }
    }
    BalancedAppend(origins, o);
  }

  lemma CountriesAppend(rows: seq<Row>, r: Row)
    ensures Countries(rows + [r]) == Countries(rows) + {r.key.country}
  {
  }

  lemma BalancedAppend(rows: seq<Row>, r: Row)
    ensures Balanced(rows + [r]) <==> Balanced(rows) && r.allowed + r.denied == r.requests
  {
    if Balanced(rows + [r]) {
      forall x | x in rows ensures x.allowed + x.denied == x.requests {
        assert x in rows + [r];
      }
      assert r in rows + [r];
    }
  }

  // The stored counts do not depend on the order the rows arrived in.
  lemma ArrivalOrderIrrelevant(table: seq<Row>, other: seq<Row>, origins: seq<Row>, shuffled: seq<Row>, j: nat, k: nat)
    requires Stands(table, origins) && Stands(other, shuffled) && multiset(origins) == multiset(shuffled)
    requires j < |table| && k < |other| && table[j].key == other[k].key
    ensures CountsOf(table[j]) == CountsOf(other[k])
  {
    var sel := Selection(Some(table[j].key), None);
    SumByKey(table, j);
    SumByKey(other, k);
    SumPermutes(origins, shuffled, sel);
  }

  // ---- conservation end to end ----

  function ServedRequests(groups: seq<HttpGroup>, served: set<string>): int {
    if groups == [] then 0
    else
      var g := groups[|groups| - 1];
      ServedRequests(groups[..|groups| - 1], served) + (if Lower(g.hostname) in served then g.requests else 0)
  }

  function LoginAttempts(groups: seq<LoginGroup>): int {
    if groups == [] then 0 else LoginAttempts(groups[..|groups| - 1]) + groups[|groups| - 1].attempts
  }

  lemma {:induction false} ServedTotal(groups: seq<HttpGroup>, served: set<string>)
    ensures Sum(ServedRows(groups, served), Everything).requests == ServedRequests(groups, served)
    ensures Balanced(ServedRows(groups, served))
  {
    if groups != [] {
      var init, g := groups[..|groups| - 1], groups[|groups| - 1];
      ServedTotal(init, served);
      SumAppend(ServedRows(init, served), HttpRow(g), Everything);
      BalancedAppend(ServedRows(init, served), HttpRow(g));
      assert ServedRows(init, served) + [] == ServedRows(init, served);
    }
  }

  lemma {:induction false} LoginTotal(groups: seq<LoginGroup>)
    ensures Sum(LoginRows(groups), Everything).requests == LoginAttempts(groups)
    ensures Balanced(LoginRows(groups)) && FromLogins(LoginRows(groups))
  {
    if groups != [] {
      var init := groups[..|groups| - 1];
      LoginTotal(init);
      SumAppend(LoginRows(init), LoginRow(groups[|groups| - 1]), Everything);
      BalancedAppend(LoginRows(init), LoginRow(groups[|groups| - 1]));
    }
  }

  // Whether a collection has anything to store: no source failed, or something arrived all the same.
  predicate Collects(groups: seq<HttpGroup>, httpOk: bool, served: set<string>, logins: Option<seq<LoginGroup>>) {
    (httpOk && logins.Some?) || ServedRows(groups, served) != [] || (logins.Some? && logins.value != [])
  }

  function LoginsOf(logins: Option<seq<LoginGroup>>): seq<LoginGroup> {
    if logins.Some? then logins.value else []
  }

  // One collection: what either source brought, folded and stored. A source that failed does not void
  // the other; when nothing arrived and something failed, the old summary stays, as it does when the
  // write fails.
  method CollectRequestOrigins(store: OriginStore, groups: seq<HttpGroup>, httpOk: bool, served: set<string>,
                               logins: Option<seq<LoginGroup>>, saveOk: bool)
    modifies store
    ensures !Collects(groups, httpOk, served, logins) || !saveOk ==> store.rows == old(store.rows)
    ensures Collects(groups, httpOk, served, logins) && saveOk ==>
      && UniqueKeys(store.rows) && Balanced(store.rows)
      && (forall sel ::
            Sum(store.rows, sel) == Plus(Sum(ServedRows(groups, served), sel), Sum(LoginRows(LoginsOf(logins)), sel)))
      && Sum(store.rows, Everything).requests == ServedRequests(groups, served) + LoginAttempts(LoginsOf(logins))
      && Sum(store.rows, Everything).allowed == HttpTotal(groups, served, false) + LoginsTotal(LoginsOf(logins), false)
      && Sum(store.rows, Everything).denied == HttpTotal(groups, served, true) + LoginsTotal(LoginsOf(logins), true)
  {
    hide Balanced, UniqueKeys, Sum, ServedRows, LoginRows, Countries, RowPerServed, LoginRowPerGroup;
    ServedOutcomes(groups, served);
    LoginOutcomes(LoginsOf(logins));
    var origins := ToHTTPOrigins(groups, served);
    var byLogin: seq<Row> := [];
    if logins.Some? {
      byLogin := LoginOrigins(logins.value);
    } else {
      NoLogins();
    }
    NothingEmitted(byLogin, LoginsOf(logins));
    if |origins + byLogin| == 0 && (!httpOk || logins.None?) {
      return;
    }
    assert Collects(groups, httpOk, served, logins);
    forall sel ensures Sum(origins + byLogin, sel) == Plus(Sum(origins, sel), Sum(LoginRows(LoginsOf(logins)), sel)) {
      SumConcat(origins, byLogin, sel);
    }
    BalancedConcat(origins, byLogin);
    ServedTotal(groups, served);
    LoginTotal(LoginsOf(logins));
    if saveOk {
      store.ReplaceRequestOrigins(origins + byLogin);
    }
  }

  lemma NoLogins()
    ensures LoginRows([]) == [] && Balanced([])
  {
  }

  // Folded logins come out empty only when there were none.
  lemma NothingEmitted(out: seq<Row>, groups: seq<LoginGroup>)
    requires Countries(out) == Countries(LoginRows(groups))
    ensures out == [] <==> groups == []
  {
    if groups != [] {
      var rows := LoginRows(groups);
      assert rows[|rows| - 1].key.country in Countries(rows);
    }
    if out != [] {
      assert out[0].key.country in Countries(out);
    }
  }

  lemma BalancedConcat(a: seq<Row>, b: seq<Row>)
    requires Balanced(a) && Balanced(b)
    ensures Balanced(a + b)
  {
  }

  // ---- display ----

  // SELECT country, SUM(...) FROM request_origins GROUP BY country
  function OriginCountryTotals(rows: seq<Row>): map<string, Counts> {
    map c | c in Countries(rows) :: Sum(rows, Of(c))
  }

  // The rows that count for a page: all of them, or those of one tunnel's hostnames.
  function Shown(rows: seq<Row>, hosts: Option<set<string>>): seq<Row> {
    if rows == [] then []
    else
      var r := rows[|rows| - 1];
      Shown(rows[..|rows| - 1], hosts) + (if hosts.None? || r.key.hostname in hosts.value then [r] else [])
  }

  lemma ShownAppend(rows: seq<Row>, r: Row, hosts: Option<set<string>>)
    ensures Shown(rows + [r], hosts) == Shown(rows, hosts) + (if hosts.None? || r.key.hostname in hosts.value then [r] else [])
  {
    assert (rows + [r])[..|rows|] == rows;
  }

  method AddOrigin(m: map<string, Counts>, o: Row, ghost rows: seq<Row>) returns (added: map<string, Counts>)
    requires Folds(m, rows)
    ensures Folds(added, rows + [o])
  {
    FoldsStep(m, rows, o);
    var entry := if o.key.country in m then m[o.key.country] else Nothing;
    added := m[o.key.country := Plus(entry, CountsOf(o))];
  }

  // The display fold: per country, and the total it shares out.
  method FoldOrigins(stored: seq<Row>, hosts: Option<set<string>>)
    returns (byCountry: map<string, Counts>, requests: int, sampled: bool)
    ensures byCountry == OriginCountryTotals(Shown(stored, hosts))
    ensures Sum(Shown(stored, hosts), Everything).requests == requests
    ensures Sum(Shown(stored, hosts), Everything).sampled == sampled
  {
    byCountry, requests, sampled := map[], 0, false;
    ghost var shown: seq<Row> := [];
    assert Shown([], hosts) == [] && stored[..0] == [] && Sum([], Everything) == Nothing;
    FoldsNothing();
    hide Shown, Sum, Folds;
    for i := 0 to |stored|
      invariant shown == Shown(stored[..i], hosts)
      invariant Folds(byCountry, shown)
      invariant requests == Sum(shown, Everything).requests && sampled == Sum(shown, Everything).sampled
    {
      var o := stored[i];
      assert stored[..i + 1] == stored[..i] + [o];
      ShownAppend(stored[..i], o, hosts);
      if hosts.Some? && o.key.hostname !in hosts.value {
        assert shown + [] == shown;
        continue;
      }
      SumAppend(shown, o, Everything);
      requests, sampled := requests + o.requests, sampled || o.sampled;
      byCountry := AddOrigin(byCountry, o, shown);
      shown := shown + [o];
    }
    assert stored[..|stored|] == stored;
    FoldIsGroupBy(byCountry, shown, shown);
  }

  // The Go fold over the rows in any order is the GROUP BY.
  lemma FoldIsGroupBy(m: map<string, Counts>, listed: seq<Row>, rows: seq<Row>)
    requires multiset(listed) == multiset(rows) && Folds(m, listed)
    ensures m == OriginCountryTotals(rows)
  {
    assert Countries(listed) == Countries(rows) by {
      forall r ensures r in listed <==> r in rows {
        assert r in listed <==> r in multiset(listed);
        assert r in rows <==> r in multiset(rows);
      }
    }
    forall c ensures Sum(listed, Of(c)) == Sum(rows, Of(c)) {
      SumPermutes(listed, rows, Of(c));
    }
  }

  datatype CountryShare = CountryShare(code: string, counts: Counts, share: real)

  function RequestsOf(out: seq<CountryShare>): int {
    if out == [] then 0 else RequestsOf(out[..|out| - 1]) + out[|out| - 1].counts.requests
  }

  lemma RequestsAppend(out: seq<CountryShare>, s: CountryShare)
    ensures RequestsOf(out + [s]) == RequestsOf(out) + s.counts.requests
  {
    assert (out + [s])[..|out|] == out;
  }

  function SharesOf(out: seq<CountryShare>): real {
    if out == [] then 0.0 else SharesOf(out[..|out| - 1]) + out[|out| - 1].share
  }

  function ShareOf(requests: int, total: int): real {
    if total > 0 then requests as real / total as real * 100.0 else 0.0
  }

  // Each country with its share of the total, in the order the map yields them.
  method CountryShares(byCountry: map<string, Counts>, total: int, ghost rows: seq<Row>)
    returns (out: seq<CountryShare>)
    requires Folds(byCountry, rows)
    ensures |out| == |byCountry|
    ensures forall c :: c in byCountry ==> Entry(c, byCountry[c], total) in out
    ensures RequestsOf(out) == Sum(rows, Everything).requests
    ensures forall s :: s in out ==> s.share == ShareOf(s.counts.requests, total)
  {
    out := [];
    var rest := byCountry.Keys;
    ghost var listed: set<string> := {};
    SumNothing(rows, None);
    assert RequestsOf([]) == 0;
    FoldMeans(byCountry, rows);
    hide Sum, RequestsOf, ShareOf, Folds, Countries;
    while rest != {}
      invariant rest !! listed && rest + listed == byCountry.Keys && |out| + |rest| == |byCountry|
      invariant forall c :: c in listed ==> Entry(c, byCountry[c], total) in out
      invariant RequestsOf(out) == Sum(rows, Selection(None, Some(listed))).requests
      invariant forall s :: s in out ==> s.share == ShareOf(s.counts.requests, total)
      decreases rest
    {
      var c :| c in rest;
      SumOneMoreCountry(rows, None, listed, c);
      rest := rest - {c};
      listed := listed + {c};
      RequestsAppend(out, Entry(c, byCountry[c], total));
      out := out + [Entry(c, byCountry[c], total)];
    }
    SumAllCountries(rows, None, byCountry.Keys);
    assert listed == byCountry.Keys;
  }

  lemma FoldMeans(m: map<string, Counts>, rows: seq<Row>)
    requires Folds(m, rows)
    ensures forall c :: c in m ==> m[c].requests == Sum(rows, Of(c)).requests
    ensures forall r :: r in rows ==> r.key.country in m
  {
    forall r | r in rows ensures r.key.country in m {
      assert r.key.country in Countries(rows);
    }
  }

  // A country's line; without any traffic its share stays zero.
  function Entry(code: string, counts: Counts, total: int): CountryShare {
    CountryShare(code, counts, ShareOf(counts.requests, total))
  }

  // The shares of a page add up to the whole whenever there is any traffic.
  lemma {:induction false} SharesAddUp(out: seq<CountryShare>, total: int)
    requires total > 0 && forall s :: s in out ==> s.share == ShareOf(s.counts.requests, total)
    ensures SharesOf(out) == ShareOf(RequestsOf(out), total)
    ensures RequestsOf(out) == total ==> SharesOf(out) == 100.0
  {
    if out != [] {
      var init, s := out[..|out| - 1], out[|out| - 1];
      assert s in out;
      SharesAddUp(init, total);
      assert SharesOf(out) == SharesOf(init) + s.share && RequestsOf(out) == RequestsOf(init) + s.counts.requests;
      hide SharesOf, RequestsOf, ShareOf;
      ShareSplits(RequestsOf(init), s.counts.requests, total);
    }
    FullShare(total);
  }

  // The origins of a page: the countries of the shown rows with shares that add up to 100 when there
  // is any traffic.
  method OriginSummary(stored: seq<Row>, hosts: Option<set<string>>)
    returns (countries: seq<CountryShare>, requests: int, sampled: bool)
    ensures var shown := Shown(stored, hosts);
      && requests == Sum(shown, Everything).requests && sampled == Sum(shown, Everything).sampled
      && |countries| == |OriginCountryTotals(shown)|
      && forall c :: c in Countries(shown) ==> Entry(c, Sum(shown, Of(c)), requests) in countries
    ensures requests > 0 ==> SharesOf(countries) == 100.0
    ensures forall s :: s in countries ==>
      if requests > 0 then s.share * requests as real == 100.0 * s.counts.requests as real else s.share == 0.0
  {
    var byCountry;
    byCountry, requests, sampled := FoldOrigins(stored, hosts);
    assert Folds(byCountry, Shown(stored, hosts));
    hide Sum, SharesOf, RequestsOf, ShareOf, Shown;
    countries := CountryShares(byCountry, requests, Shown(stored, hosts));
    if requests > 0 {
      SharesAddUp(countries, requests);
    }
    SharesMean(countries, requests);
  }

  lemma SharesMean(out: seq<CountryShare>, total: int)
    requires forall s :: s in out ==> s.share == ShareOf(s.counts.requests, total)
    ensures forall s :: s in out ==>
      if total > 0 then s.share * total as real == 100.0 * s.counts.requests as real else s.share == 0.0
  {
    hide ShareOf;
    forall s | s in out
      ensures if total > 0 then s.share * total as real == 100.0 * s.counts.requests as real else s.share == 0.0
    {
      ShareMeans(s.counts.requests, total);
    }
  }

  lemma ShareMeans(requests: int, total: int)
    ensures if total > 0 then ShareOf(requests, total) * total as real == 100.0 * requests as real
            else ShareOf(requests, total) == 0.0
  {
    if total > 0 {
      QuotientTimes(requests as real, total as real);
    }
  }

  lemma FullShare(total: int)
    requires total > 0
    ensures ShareOf(total, total) == 100.0
  {
    var t := total as real;
    var q := t / t;
    QuotientTimes(t, t);
    assert (q - 1.0) * t == 0.0;
    ZeroProduct(q - 1.0, t);
  }

  lemma ShareSplits(a: int, b: int, total: int)
    requires total > 0
    ensures ShareOf(a + b, total) == ShareOf(a, total) + ShareOf(b, total)
  {
    var x, y, t := a as real, b as real, total as real;
    assert (a + b) as real == x + y;
    QuotientSplits(x, y, t);
    assert (x / t + y / t) * 100.0 == x / t * 100.0 + y / t * 100.0;
  }

  lemma QuotientSplits(a: real, b: real, t: real)
    requires t > 0.0
    ensures (a + b) / t == a / t + b / t
  {
    var x, y, z := a / t, b / t, (a + b) / t;
    assert x * t == a && y * t == b && z * t == a + b;
    var d := z - (x + y);
    assert d * t == z * t - x * t - y * t == 0.0;
    ZeroProduct(d, t);
  }

  lemma QuotientTimes(a: real, t: real)
    requires t > 0.0
    ensures a / t * t == a
  {
  }

  lemma ZeroProduct(d: real, t: real)
    requires t > 0.0 && d * t == 0.0
    ensures d == 0.0
  {
  }
}
