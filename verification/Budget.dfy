// The Cloudflare client's budget guard, its retry loop and the two separate quotas.
module Budget {
  import opened Clock

  const MAX_ATTEMPTS := 3
  const GRAPHQL_RESERVE := 25
  const DEFAULT_BLOCK: int := 300_000_000_000

  datatype RateLimit = RateLimit(remaining: int, quota: int, resetAt: int, known: bool)

  // The parsed response headers: remaining and reset delay, policy quota, Retry-After.
  datatype Headers = Headers(limit: Option<(int, int)>, policy: Option<int>, retryAfter: int)

  // What one attempt meets.
  datatype Reply =
    | NoResponse(contextDone: bool)
    | Response(status: int, headers: Headers, body: Body)

  datatype Body = Complete | Broken(contextDone: bool)

  // One slot of the retry loop: whether the pause before it was cancelled, the time its response is
  // recorded at, and the reply.
  datatype Exchange = Exchange(cancelled: bool, now: int, reply: Reply)

  // A call as the world will meet it, at the time its budget is checked.
  datatype Call = Call(graphQL: bool, at: int, script: seq<Exchange>)

  predicate Delivered(x: Exchange) {
    x.reply.Response? && x.reply.body.Complete? && 200 <= x.reply.status <= 299
  }

  // Failures that invite another attempt: transport errors while the context lives, and server errors.
  predicate Retryable(x: Exchange) {
    match x.reply
    case NoResponse(done) => !done
    case Response(status, _, Broken(done)) => !done
    case Response(status, _, Complete) => status >= 500
  }

  predicate Admitted(rate: RateLimit, reserve: int, now: int) {
    !rate.known || now > rate.resetAt || rate.remaining > reserve
  }

  // The kth attempt fails, invites another one, and the pause before that is not cancelled.
  predicate GoesOn(script: seq<Exchange>, k: nat)
    requires k + 1 < |script|
  {
    !Delivered(script[k]) && Retryable(script[k]) && !script[k + 1].cancelled
  }

  // The number of attempts a send makes once it is admitted.
  function Tries(script: seq<Exchange>): (n: nat)
    ensures n <= |script|
  {
    if script == [] then 0
    else if |script| > 1 && GoesOn(script, 0) then 1 + Tries(script[1..])
    else 1
  }

  // What is left of it after n attempts that all invite another one.
  function TriesLeft(script: seq<Exchange>, n: nat): nat {
    if n == 0 then Tries(script)
    else if n < |script| && !script[n].cancelled then Tries(script[n..])
    else 0
  }

  function Attempts(rate: RateLimit, reserve: int, call: Call): nat {
    if Admitted(rate, reserve, call.at) then Tries(call.script) else 0
  }

  function Recorded(rate: RateLimit, x: Exchange): RateLimit {
    match x.reply
    case NoResponse(_) => rate
    case Response(status, h, _) =>
      var limited :=
        if h.limit.Some? then rate.(remaining := h.limit.value.0, resetAt := x.now + h.limit.value.1, known := true)
        else rate;
      var quoted := if h.policy.Some? then limited.(quota := h.policy.value) else limited;
      if status == 429 then
        var pause := if h.retryAfter <= 0 then DEFAULT_BLOCK else h.retryAfter;
        quoted.(remaining := 0, resetAt := x.now + pause, known := true)
      else quoted
  }

  function RecordedAll(rate: RateLimit, xs: seq<Exchange>): RateLimit {
    if xs == [] then rate else Recorded(RecordedAll(rate, xs[..|xs| - 1]), xs[|xs| - 1])
  }

  // ---- the client ----

  datatype Quotas = Quotas(rest: RateLimit, graphQL: RateLimit) {
    function Of(graphQL: bool): RateLimit { if graphQL then this.graphQL else rest }
  }

  function ReserveOf(reserve: int, graphQL: bool): int { if graphQL then GRAPHQL_RESERVE else reserve }

  function AttemptsOf(q: Quotas, reserve: int, call: Call): (n: nat)
    ensures n <= |call.script|
  {
    Attempts(q.Of(call.graphQL), ReserveOf(reserve, call.graphQL), call)
  }

  // The quotas after one send.
  function Step(q: Quotas, reserve: int, call: Call): Quotas {
    var rate := RecordedAll(q.Of(call.graphQL), call.script[..AttemptsOf(q, reserve, call)]);
    if call.graphQL then q.(graphQL := rate) else q.(rest := rate)
  }

  function Run(q: Quotas, reserve: int, calls: seq<Call>): Quotas {
    if calls == [] then q else Step(Run(q, reserve, calls[..|calls| - 1]), reserve, calls[|calls| - 1])
  }

  const Unknown := RateLimit(0, 0, 0, false)

  // ---- single replies, in terms of status, headers and body ----

  predicate Succeeded(x: Exchange) {
    x.reply.Response? && x.reply.body.Complete? && 200 <= x.reply.status && x.reply.status <= 299
  }

  // No reply or half a body while the context is alive, or a complete server error.
  predicate Invites(x: Exchange) {
    || (x.reply.NoResponse? && !x.reply.contextDone)
    || (x.reply.Response? && x.reply.body.Broken? && !x.reply.body.contextDone)
    || (x.reply.Response? && x.reply.body.Complete? && x.reply.status >= 500)
  }

  // What is known of a quota after a reply.
  predicate Updates(was: RateLimit, x: Exchange, rate: RateLimit) {
    if x.reply.NoResponse? then rate == was
    else
      var h := x.reply.headers;
      && rate.quota == (if h.policy.Some? then h.policy.value else was.quota)
      && (if x.reply.status == 429 then
            && rate.known && rate.remaining == 0
            && rate.resetAt == x.now + (if h.retryAfter > 0 then h.retryAfter else 300_000_000_000)
          else if h.limit.Some? then
            rate.known && rate.remaining == h.limit.value.0 && rate.resetAt == x.now + h.limit.value.1
          else
            rate.known == was.known && rate.remaining == was.remaining && rate.resetAt == was.resetAt)
  }

  // A budget that is not known to be used up before its reset.
  predicate Open(rate: RateLimit, reserve: int, now: int) {
    !(rate.known && now <= rate.resetAt && rate.remaining <= reserve)
  }

  // The n attempts a script leads to: another one is made exactly when the one before invites it, a
  // slot is left and the pause is not cancelled.
  predicate Attempted(script: seq<Exchange>, n: nat)
    requires |script| == 3
  {
    && 1 <= n <= 3
    && (n >= 2 <==> Invites(script[0]) && !script[1].cancelled)
    && (n == 3 <==> Invites(script[0]) && !script[1].cancelled && Invites(script[1]) && !script[2].cancelled)
  }

  lemma TriesAttempted(script: seq<Exchange>)
    requires |script| == 3
    ensures Attempted(script, Tries(script))
    ensures forall x :: Delivered(x) <==> Succeeded(x)
  {
    var rest, last := script[1..], script[2..];
    assert rest[0] == script[1] && rest[1] == script[2] && rest[1..] == last;
    GoesOnMeans(script, 0);
    GoesOnMeans(rest, 0);
    hide GoesOn, Invites;
    assert Tries(last) == 1;
    assert Tries(rest) == if GoesOn(rest, 0) then 2 else 1;
    assert Tries(script) == if GoesOn(script, 0) then 1 + Tries(rest) else 1;
  }

  lemma GoesOnMeans(script: seq<Exchange>, k: nat)
    requires k + 1 < |script|
    ensures GoesOn(script, k) <==> Invites(script[k]) && !script[k + 1].cancelled
  {
  }

  class Client {
    var rate: RateLimit
    var graphQLRate: RateLimit
    const reserve: int

    constructor (reserve: int)
      ensures this.reserve == reserve && State() == Quotas(Unknown, Unknown)
    {
      this.reserve, rate, graphQLRate := reserve, Unknown, Unknown;
    }

    function State(): Quotas
      reads this
    {
      Quotas(rate, graphQLRate)
    }

    // One call: refused by the guard, or attempted until it succeeds or gives up.
    method Send(call: Call) returns (ok: bool, attempts: nat)
      requires |call.script| == MAX_ATTEMPTS
      modifies this
      ensures attempts == AttemptsOf(old(State()), reserve, call)
      ensures State() == Step(old(State()), reserve, call)
      ensures ok <==> attempts > 0 && Delivered(call.script[attempts - 1])
      ensures call.graphQL ==> (attempts > 0 <==> Open(old(graphQLRate), 25, call.at))
      ensures !call.graphQL ==> (attempts > 0 <==> Open(old(rate), reserve, call.at))
      ensures attempts > 0 ==> Attempted(call.script, attempts)
      ensures ok <==> attempts > 0 && Succeeded(call.script[attempts - 1])
    {
      ok, attempts := false, 0;
      TriesAttempted(call.script);
      var admitted := CheckBudget(call.graphQL, call.at);
      if !admitted {
        return;
      }
      hide Recorded, Attempted, Open, Succeeded, Updates;
      ghost var before := State().Of(call.graphQL);
      ghost var other := State().Of(!call.graphQL);
      while attempts < MAX_ATTEMPTS
        invariant attempts <= MAX_ATTEMPTS
        invariant Tries(call.script) == attempts + TriesLeft(call.script, attempts)
        invariant attempts > 0 ==> !Delivered(call.script[attempts - 1])
        invariant State().Of(call.graphQL) == RecordedAll(before, call.script[..attempts])
        invariant State().Of(!call.graphQL) == other
      {
        var x := call.script[attempts];
        if attempts > 0 && x.cancelled {
          break;
        }
        RecordRateLimit(x, call.graphQL);
        assert call.script[..attempts + 1][..attempts] == call.script[..attempts];
        assert call.script[attempts..][1..] == call.script[attempts + 1..];
        attempts := attempts + 1;
        if Delivered(x) {
          ok := true;
          break;
        }
        if !Retryable(x) {
          break;
        }
      }
    }

    method CheckBudget(graphQL: bool, now: int) returns (admitted: bool)
      ensures admitted == Admitted(State().Of(graphQL), ReserveOf(reserve, graphQL), now)
      ensures admitted <==> if graphQL then Open(graphQLRate, 25, now) else Open(rate, reserve, now)
    {
      var current, floor := rate, reserve;
      if graphQL {
        current, floor := graphQLRate, GRAPHQL_RESERVE;
      }
      if !current.known || now > current.resetAt {
        return true;
      }
      return current.remaining > floor;
    }

    method RecordRateLimit(x: Exchange, graphQL: bool)
      modifies this
      ensures State().Of(graphQL) == Recorded(old(State()).Of(graphQL), x)
      ensures State().Of(!graphQL) == old(State()).Of(!graphQL)
      ensures graphQL ==> Updates(old(graphQLRate), x, graphQLRate) && rate == old(rate)
      ensures !graphQL ==> Updates(old(rate), x, rate) && graphQLRate == old(graphQLRate)
    {
      if x.reply.NoResponse? {
        return;
      }
      var h, current := x.reply.headers, if graphQL then graphQLRate else rate;
      if h.limit.Some? {
        current := current.(remaining := h.limit.value.0, resetAt := x.now + h.limit.value.1, known := true);
      }
      if h.policy.Some? {
        current := current.(quota := h.policy.value);
      }
      if x.reply.status == 429 {
        var retryAfter := if h.retryAfter <= 0 then DEFAULT_BLOCK else h.retryAfter;
        current := current.(remaining := 0, resetAt := x.now + retryAfter, known := true);
      }
      if graphQL {
        graphQLRate := current;
      } else {
        rate := current;
      }
    }
  }

  // A send goes on exactly as long as each attempt fails, invites another one and the pause is not cancelled.
  lemma {:induction false} TriesMeans(script: seq<Exchange>)
    ensures var n := Tries(script);
      && (n == 0 <==> script == [])
      && (forall k :: 0 <= k < n - 1 ==> GoesOn(script, k))
      && (0 < n < |script| ==> !GoesOn(script, n - 1))
  {
    if script != [] && Tries(script) > 1 {
      var rest := script[1..];
      TriesMeans(rest);
      forall k | 0 <= k < Tries(script) - 1 ensures GoesOn(script, k) {
        if k > 0 {
          assert GoesOn(rest, k - 1);
          assert script[k] == rest[k - 1] && script[k + 1] == rest[k];
        }
      }
      var n := Tries(script);
      if n < |script| {
        assert script[n - 1] == rest[n - 2] && script[n] == rest[n - 1];
      }
    }
  }

  // ---- REST and GraphQL do not affect each other ----

  function Only(calls: seq<Call>, graphQL: bool): seq<Call> {
    if calls == [] then []
    else
      var c := calls[|calls| - 1];
      Only(calls[..|calls| - 1], graphQL) + (if c.graphQL == graphQL then [c] else [])
  }

  lemma {:induction false} QuotasAreIsolated(q: Quotas, reserve: int, calls: seq<Call>, graphQL: bool)
    ensures Run(q, reserve, calls).Of(graphQL) == Run(q, reserve, Only(calls, graphQL)).Of(graphQL)
    ensures forall next: Call :: next.graphQL == graphQL ==>
      AttemptsOf(Run(q, reserve, calls), reserve, next) == AttemptsOf(Run(q, reserve, Only(calls, graphQL)), reserve, next)
  {
    if calls != [] {
      var init, c := calls[..|calls| - 1], calls[|calls| - 1];
      QuotasAreIsolated(q, reserve, init, graphQL);
      var own := Only(init, graphQL);
      assert (own + [c])[..|own|] == own;
      assert own + [] == own;
    }
  }

  // ---- blocked until the reset ----

  predicate Blocked(rate: RateLimit, reserve: int) {
    rate.known && rate.remaining <= reserve
  }

  // No call on an API is attempted, or changes its quota, before the reset of a blocked rate.
  lemma {:induction false} BlockedUntilReset(q: Quotas, reserve: int, calls: seq<Call>, next: Call)
    requires var rate := q.Of(next.graphQL);
      && Blocked(rate, ReserveOf(reserve, next.graphQL)) && next.at <= rate.resetAt
      && forall c :: c in calls && c.graphQL == next.graphQL ==> c.at <= rate.resetAt
    ensures Run(q, reserve, calls).Of(next.graphQL) == q.Of(next.graphQL)
    ensures AttemptsOf(Run(q, reserve, calls), reserve, next) == 0
  {
    if calls != [] {
      var init, c := calls[..|calls| - 1], calls[|calls| - 1];
      assert c in calls;
      BlockedUntilReset(q, reserve, init, next);
    }
  }

  // The response advertises no more than the reserve, until at least the given time.
  predicate AtReserve(x: Exchange, reserve: int, until: int) {
    && x.reply.Response? && x.reply.headers.limit.Some? && x.reply.status != 429
    && x.reply.headers.limit.value.0 <= reserve && x.now + x.reply.headers.limit.value.1 >= until
  }

  // Nothing recorded after attempt k reopens the budget before the given time.
  predicate StaysLow(x: Exchange, reserve: int, until: int) {
    x.reply.Response? ==>
      && (x.reply.headers.limit.Some? && x.reply.status != 429 ==> AtReserve(x, reserve, until))
      && (x.reply.status == 429 ==> reserve >= 0 && Recorded(Unknown, x).resetAt >= until)
  }

  lemma {:induction false} LowQuotaSticks(rate: RateLimit, xs: seq<Exchange>, k: nat, reserve: int, until: int)
    requires k < |xs| && AtReserve(xs[k], reserve, until)
    requires forall j :: k < j < |xs| ==> StaysLow(xs[j], reserve, until)
    ensures Blocked(RecordedAll(rate, xs), reserve) && RecordedAll(rate, xs).resetAt >= until
  {
    LastRecorded(rate, xs);
    if k < |xs| - 1 {
      LowQuotaSticks(rate, xs[..|xs| - 1], k, reserve, until);
    }
    hide RecordedAll;
  }

  // After a response at or under the reserve only the same send's remaining retries go out, at most
  // two of them; every later call on that API waits for the reset.
  lemma OnlyRetriesAfterLowQuota(q: Quotas, reserve: int, call: Call, k: nat, until: int, later: seq<Call>, next: Call)
    requires |call.script| == MAX_ATTEMPTS && k < AttemptsOf(q, reserve, call) && next.graphQL == call.graphQL
    requires AtReserve(call.script[k], ReserveOf(reserve, call.graphQL), until)
    requires forall j :: k < j < AttemptsOf(q, reserve, call) ==>
      StaysLow(call.script[j], ReserveOf(reserve, call.graphQL), until)
    requires next.at <= until && forall c :: c in later && c.graphQL == call.graphQL ==> c.at <= until
    ensures AttemptsOf(q, reserve, call) - (k + 1) <= 2
    ensures AttemptsOf(Run(Step(q, reserve, call), reserve, later), reserve, next) == 0
  {
    var xs := call.script[..AttemptsOf(q, reserve, call)];
    hide Run, Tries, RecordedAll;
    LowQuotaSticks(q.Of(call.graphQL), xs, k, ReserveOf(reserve, call.graphQL), until);
    BlockedUntilReset(Step(q, reserve, call), reserve, later, next);
  }

  predicate TooMany(x: Exchange) {
    x.reply.Response? && x.reply.status == 429
  }

  // A refused body read makes any response look like a transport failure, a 429 included.
  predicate ReadFailed(x: Exchange) {
    x.reply.Response? && x.reply.body == Broken(false)
  }

  // A 429 whose body arrives ends its send, and no later call on that API is attempted until the reset.
  lemma NothingAfterTooMany(q: Quotas, reserve: int, call: Call, k: nat, later: seq<Call>, next: Call)
    requires k < AttemptsOf(q, reserve, call) && TooMany(call.script[k]) && !ReadFailed(call.script[k])
    requires ReserveOf(reserve, call.graphQL) >= 0 && next.graphQL == call.graphQL
    requires var rate := Step(q, reserve, call).Of(call.graphQL);
      next.at <= rate.resetAt && forall c :: c in later && c.graphQL == call.graphQL ==> c.at <= rate.resetAt
    ensures k == AttemptsOf(q, reserve, call) - 1
    ensures Step(q, reserve, call).Of(call.graphQL).resetAt > call.script[k].now
    ensures AttemptsOf(Run(Step(q, reserve, call), reserve, later), reserve, next) == 0
  {
    TriesMeans(call.script);
    var n := AttemptsOf(q, reserve, call);
    assert call.script[..n][..n - 1] == call.script[..n - 1];
    hide Run, Tries, RecordedAll;
    assert k < n - 1 ==> GoesOn(call.script, k);
    var before := RecordedAll(q.Of(call.graphQL), call.script[..n - 1]);
    assert Step(q, reserve, call).Of(call.graphQL) == Recorded(before, call.script[n - 1]) by {
      LastRecorded(q.Of(call.graphQL), call.script[..n]);
    }
    BlockedUntilReset(Step(q, reserve, call), reserve, later, next);
  }

  lemma LastRecorded(rate: RateLimit, xs: seq<Exchange>)
    requires xs != []
    ensures RecordedAll(rate, xs) == Recorded(RecordedAll(rate, xs[..|xs| - 1]), xs[|xs| - 1])
  {
  }

  // The block holds exactly for a non-negative reserve: nothing is left, and nothing must stay left.
  lemma TooManyBlocksIff(rate: RateLimit, x: Exchange, reserve: int, t: int)
    requires TooMany(x)
    ensures Admitted(Recorded(rate, x), reserve, t) <==> t > Recorded(rate, x).resetAt || reserve < 0
  {
  }

  // Within a send, a 429 is followed by another attempt exactly when its body could not be read, a
  // slot is left and the pause is not cancelled.
  lemma TooManyRetriedIff(q: Quotas, reserve: int, call: Call, k: nat)
    requires k < AttemptsOf(q, reserve, call) && TooMany(call.script[k])
    ensures k + 1 < AttemptsOf(q, reserve, call)
      <==> ReadFailed(call.script[k]) && k + 1 < |call.script| && !call.script[k + 1].cancelled
  {
    TriesMeans(call.script);
    hide Tries;
    var n := AttemptsOf(q, reserve, call);
    assert k + 1 < n ==> GoesOn(call.script, k);
    assert k == n - 1 && n < |call.script| ==> !GoesOn(call.script, k);
  }

  // Three replies of 429 whose bodies break off: the first send of a client uses up all its attempts.
  lemma TooManyIsRetried(graphQL: bool, reserve: int, at: int, later: int)
    ensures var x := Exchange(false, later, Response(429, Headers(None, None, 0), Broken(false)));
      TooMany(x) && AttemptsOf(Quotas(Unknown, Unknown), reserve, Call(graphQL, at, [x, x, x])) == 3
  {
    var x := Exchange(false, later, Response(429, Headers(None, None, 0), Broken(false)));
    assert [x, x, x][1..] == [x, x] && [x, x][1..] == [x];
    assert Tries([x]) == 1;
    assert Tries([x, x]) == 2;
    assert Tries([x, x, x]) == 3;
  }

  // ---- a server that answers and counts every attempt ----

  // The replies of a server with s requests left in a window ending at end.
  predicate Counted(s: nat, script: seq<Exchange>, n: nat, end: int)
    requires n <= |script|
  {
    forall k :: 0 <= k < n ==>
      && script[k].reply.Response?
      && script[k].reply.headers.limit.Some?
      && script[k].reply.headers.limit.value.0 == Max(0, s - k - 1)
      && script[k].now + script[k].reply.headers.limit.value.1 >= end
      && (script[k].reply.status == 429 ==> s <= k)
  }

  function ServerLeft(q: Quotas, reserve: int, s: nat, calls: seq<Call>, graphQL: bool): nat {
    if calls == [] then s
    else
      var init, c := calls[..|calls| - 1], calls[|calls| - 1];
      var left := ServerLeft(q, reserve, s, init, graphQL);
      if c.graphQL == graphQL then Max(0, left - AttemptsOf(Run(q, reserve, init), reserve, c)) else left
  }

  predicate HonestWindow(q: Quotas, reserve: int, s: nat, calls: seq<Call>, graphQL: bool, end: int) {
    if calls == [] then true
    else
      var init, c := calls[..|calls| - 1], calls[|calls| - 1];
      && HonestWindow(q, reserve, s, init, graphQL, end)
      && (c.graphQL == graphQL ==>
            && c.at <= end && |c.script| == MAX_ATTEMPTS
            && Counted(ServerLeft(q, reserve, s, init, graphQL), c.script, AttemptsOf(Run(q, reserve, init), reserve, c), end))
  }

  // The client knows what the server has left.
  predicate InStep(rate: RateLimit, s: nat, end: int) {
    rate.known && rate.remaining == s && (s > 0 ==> rate.resetAt >= end)
  }

  lemma CountedKeepsStep(rate: RateLimit, s: nat, script: seq<Exchange>, n: nat, end: int)
    requires 0 < n <= |script| && Counted(s, script, n, end)
    ensures InStep(RecordedAll(rate, script[..n]), Max(0, s - n), end)
  {
    LastRecorded(rate, script[..n]);
    hide RecordedAll;
  }

  lemma OneSendInWindow(rate: RateLimit, reserve: int, s: nat, call: Call, end: int)
    requires s > reserve || InStep(rate, s, end)
    requires s >= reserve - 2 && call.at <= end && |call.script| == MAX_ATTEMPTS
    ensures Max(0, s - Attempts(rate, reserve, call)) >= reserve - 2
  {
  }

  // With this client as the only consumer, a window that starts above the reserve never drops below
  // reserve - 2, whatever else the client sends on its other API.
  lemma {:induction false} WindowKeepsReserve(q: Quotas, reserve: int, s: nat, calls: seq<Call>, graphQL: bool,
                                              end: int)
    requires s > (if graphQL then 25 else reserve) && HonestWindow(q, reserve, s, calls, graphQL, end)
    ensures ServerLeft(q, reserve, s, calls, graphQL) >= (if graphQL then 23 else reserve - 2)
    ensures var left := ServerLeft(q, reserve, s, calls, graphQL);
      left > (if graphQL then 25 else reserve) || InStep(Run(q, reserve, calls).Of(graphQL), left, end)
  {
    if calls != [] {
      var init, c := calls[..|calls| - 1], calls[|calls| - 1];
      WindowKeepsReserve(q, reserve, s, init, graphQL, end);
      if c.graphQL == graphQL {
        var before, left := Run(q, reserve, init), ServerLeft(q, reserve, s, init, graphQL);
        var rate, n := before.Of(graphQL), AttemptsOf(before, reserve, c);
        OneSendInWindow(rate, ReserveOf(reserve, graphQL), left, c, end);
        assert Run(q, reserve, calls).Of(graphQL) == RecordedAll(rate, c.script[..n]);
        hide Run, ServerLeft, RecordedAll, Tries, Counted;
        if n > 0 {
          CountedKeepsStep(rate, left, c.script, n, end);
        } else {
          assert RecordedAll(rate, []) == rate by { NoneRecorded(rate); }
          assert c.script[..n] == [];
        }
      }
    }
  }

  lemma NoneRecorded(rate: RateLimit)
    ensures RecordedAll(rate, []) == rate
  {
  }
}
