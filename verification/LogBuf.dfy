// The in-memory ring of recent log records.
module LogBuf {
  import opened Clock

  datatype Entry = Entry(time: int, level: string, message: string)

  // The last n elements, or all of them when there are fewer.
  function LastN<T>(s: seq<T>, n: nat): seq<T> {
    if |s| <= n then s else s[|s| - n..]
  }

  lemma {:induction false} LastNAppend<T>(s: seq<T>, n: nat, x: T)
    requires 0 < n
    ensures LastN(s + [x], n) == if |LastN(s, n)| < n then LastN(s, n) + [x] else LastN(s, n)[1..] + [x]
  {
  }

  class Buffer {
    const entries: array<Entry>
    var start: nat
    var count: nat
    const max: nat
    // Everything ever added, oldest first.
    ghost var added: seq<Entry>

    ghost predicate Valid()
      reads this, entries
    {
      && 0 < max == entries.Length
      && start < max && count <= max
      && Held() == LastN(added, max)
    }

    // The held records, oldest first.
    ghost function Held(): seq<Entry>
      reads this, entries
      requires 0 < max == entries.Length && start < max && count <= max
    {
      Around(entries[..], start, count)
    }

    constructor (size: int)
      ensures Valid() && fresh(entries)
      ensures max == if size <= 0 then 200 else size
      ensures added == []
    {
      max := if size <= 0 then 200 else size;
      entries := new Entry[if size <= 0 then 200 else size](_ => Entry(0, "", ""));
      start, count, added := 0, 0, [];
    }

    method Add(e: Entry)
      requires Valid()
      modifies this, entries
      ensures Valid() && added == old(added) + [e]
    {
      hide Around, LastN, Slot;
      Wrap(start + count, max);
      Wrap(start + 1, max);
      LastNAppend(added, max, e);
      AroundUpdate(entries[..], start, count, e);
      added := added + [e];
      ghost var ring := entries[..];
      entries[(start + count) % max] := e;
      assert entries[..] == ring[Slot(start + count, max) := e];
      if count < max {
        count := count + 1;
        return;
      }
      start := (start + 1) % max;
    }

    // A copy of the held records in two pieces: up to the end of the array, then from its start.
    method Entries() returns (out: seq<Entry>)
      requires Valid()
      ensures out == LastN(added, max)
      ensures |out| == (if |added| < max then |added| else max) && out == added[|added| - |out|..]
    {
      var stop := Min(start + count, max);
      out := entries[start..stop];
      out := out + entries[..count - |out|];
      ghost var held := Around(entries[..], start, count);
      assert forall i :: 0 <= i < count ==> out[i] == held[i];
      assert out == held;
    }
  }

  // The n records from start on, read around the ring.
  function Around(ring: seq<Entry>, start: nat, count: nat): (r: seq<Entry>)
    requires start < |ring| && count <= |ring|
    ensures |r| == count
    ensures forall i :: 0 <= i < count ==> r[i] == ring[Slot(start + i, |ring|)]
  {
    seq(count, i requires 0 <= i < count => ring[Slot(start + i, |ring|)])
  }

  // Writing behind the newest record appends it, and evicts the oldest when the ring is full.
  lemma AroundUpdate(ring: seq<Entry>, start: nat, count: nat, e: Entry)
    requires start < |ring| && count <= |ring|
    ensures var now := ring[Slot(start + count, |ring|) := e];
      if count < |ring| then Around(now, start, count + 1) == Around(ring, start, count) + [e]
      else Around(now, Slot(start + 1, |ring|), count) == Around(ring, start, count)[1..] + [e]
  {
    var now := ring[Slot(start + count, |ring|) := e];
    var was := Around(ring, start, count);
    if count < |ring| {
      var next := Around(now, start, count + 1);
      assert forall i :: 0 <= i < count ==> next[i] == was[i];
    } else {
      var next := Around(now, Slot(start + 1, |ring|), count);
      assert forall i :: 0 <= i < count - 1 ==> next[i] == was[1..][i];
    }
  }

  // k modulo n, for an index at most one turn ahead.
  function Slot(k: nat, n: nat): nat {
    if k < n then k else k - n
  }

  lemma Wrap(k: nat, n: nat)
    requires 0 < n && k < 2 * n
    ensures k % n == Slot(k, n)
  {
    if k >= n {
      assert k == n + (k - n);
    }
  }
}
