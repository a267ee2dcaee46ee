// Listing a collection that the API hands out in pages.
module Paging {
  import opened Clock

  const PER_PAGE := 50
  const MAX_PAGES := 50

  datatype Page<T> = Failed | Page(items: seq<T>, total: Option<int>)

  datatype Listing<T> = Error | Items(items: seq<T>)

  // The items of one page of a fixed list.
  function PageOf<T>(all: seq<T>, page: nat): seq<T>
    requires page >= 1
  {
    all[Min((page - 1) * PER_PAGE, |all|)..Min(page * PER_PAGE, |all|)]
  }

  // A server paging a fixed list; each page carries the right total or none.
  ghost predicate Serves<T(!new)>(server: nat -> Page<T>, all: seq<T>) {
    forall page: nat {:trigger server(page)} :: 1 <= page <= MAX_PAGES ==>
      && server(page).Page?
      && server(page).items == PageOf(all, page)
      && (server(page).total.Some? ==> server(page).total.value == |all|)
  }

  // The first 2500 items at most, with no request more than needed to see the end.
  method ListAll<T(!new)>(server: nat -> Page<T>, ghost all: seq<T>) returns (out: Listing<T>, requests: nat)
    ensures 1 <= requests <= 50
    ensures Serves(server, all) ==> out == Items(if |all| <= 2500 then all else all[..2500])
    ensures Serves(server, all) ==> requests <= |all| / 50 + 1
    ensures out.Error? <==> server(requests).Failed?
    ensures forall p: nat {:trigger server(p)} :: 1 <= p < requests ==> server(p).Page?
  {
    var got: seq<T> := [];
    var page: nat := 1;
    while page <= MAX_PAGES
      invariant 1 <= page <= MAX_PAGES + 1
      invariant Serves(server, all) ==> got == all[..Min((page - 1) * PER_PAGE, |all|)]
      invariant Serves(server, all) && page > 1 ==> (page - 1) * PER_PAGE <= |all|
      invariant forall p: nat {:trigger server(p)} :: 1 <= p < page ==> server(p).Page?
      decreases MAX_PAGES - page
    {
      var reply := server(page);
      if reply.Failed? {
        return Error, page;
      }
      got := got + reply.items;
      if |reply.items| < PER_PAGE {
        return Items(got), page;
      }
      if reply.total.Some? && reply.total.value > 0 && |got| >= reply.total.value {
        return Items(got), page;
      }
      page := page + 1;
    }
    return Items(got), MAX_PAGES;
  }

  // One entry of the rate limit header; an absent or unreadable number is negative.
  datatype Policy = Policy(remaining: int, reset: int)

  // Item i is the first to offer less than every readable one before it.
  predicate Lowers(items: seq<Policy>, i: nat)
    requires i < |items|
  {
    items[i].remaining >= 0 && forall k :: 0 <= k < i && items[k].remaining >= 0 ==> items[i].remaining < items[k].remaining
  }

  // The reset is that of the last item that lowered the quota and named one; without any it is zero.
  ghost predicate LastNamedReset(items: seq<Policy>, reset: int) {
    || (exists i :: 0 <= i < |items| && NamesReset(items, i) && reset == FromUnix(items[i].reset)
          && forall k :: i < k < |items| ==> !NamesReset(items, k))
    || (reset == 0 && forall k :: 0 <= k < |items| ==> !NamesReset(items, k))
  }

  predicate NamesReset(items: seq<Policy>, i: nat)
    requires i < |items|
  {
    Lowers(items, i) && items[i].reset >= 0
  }

  // The tightest remaining quota of all listed policies, and the reset last named on the way down to it.
  method TightestLimit(items: seq<Policy>) returns (remaining: int, reset: int, ok: bool)
    ensures ok <==> exists i :: 0 <= i < |items| && items[i].remaining >= 0
    ensures ok ==> exists i :: 0 <= i < |items| && Tightest(items, i) && items[i].remaining == remaining
    ensures LastNamedReset(items, reset)
  {
    remaining, reset := -1, 0;
    ghost var best: nat := 0;
    for k := 0 to |items|
      invariant remaining >= -1
      invariant remaining < 0 ==> forall i :: 0 <= i < k ==> items[i].remaining < 0
      invariant remaining >= 0 ==> best < k && items[best].remaining == remaining && TightestAmong(items, k, best)
      invariant LastNamedReset(items[..k], reset)
    {
      hide LastNamedReset;
      ghost var was := reset;
      FirstLower(items, k, remaining, best);
      if items[k].remaining < 0 {
        ResetStep(items, k, was, reset);
        continue;
      }
      if remaining < 0 || items[k].remaining < remaining {
        remaining, best := items[k].remaining, k;
        if items[k].reset >= 0 {
          reset := FromUnix(items[k].reset);
        }
      }
      ResetStep(items, k, was, reset);
    }
    assert items[..|items|] == items;
    ok := remaining >= 0;
  }

  // An item lowers the quota exactly when it undercuts the tightest one so far.
  lemma FirstLower(items: seq<Policy>, k: nat, remaining: int, best: nat)
    requires k < |items|
    requires remaining < 0 ==> forall i :: 0 <= i < k ==> items[i].remaining < 0
    requires remaining >= 0 ==> best < k && items[best].remaining == remaining && TightestAmong(items, k, best)
    ensures Lowers(items, k) <==> items[k].remaining >= 0 && (remaining < 0 || items[k].remaining < remaining)
  {
  }

  lemma ResetStep(items: seq<Policy>, k: nat, was: int, reset: int)
    requires k < |items| && LastNamedReset(items[..k], was)
    requires reset == if NamesReset(items, k) then FromUnix(items[k].reset) else was
    ensures LastNamedReset(items[..k + 1], reset)
  {
    var before, now := items[..k], items[..k + 1];
    forall i | 0 <= i < k ensures NamesReset(now, i) <==> NamesReset(before, i) {
    }
    assert NamesReset(now, k) <==> NamesReset(items, k);
  }

  predicate Tightest(items: seq<Policy>, i: nat)
    requires i < |items|
  {
    TightestAmong(items, |items|, i)
  }

  // Item i has the least readable quota of the first n, and is the first that has it.
  predicate TightestAmong(items: seq<Policy>, n: nat, i: nat)
    requires i < n <= |items|
  {
    && items[i].remaining >= 0
    && (forall k :: 0 <= k < n && items[k].remaining >= 0 ==> items[i].remaining <= items[k].remaining)
    && (forall k :: 0 <= k < i && items[k].remaining >= 0 ==> items[i].remaining < items[k].remaining)
  }
}
