// Instants are nanosecond counts since the Unix epoch. The database keeps whole seconds.
module Clock {

  const HOUR: int := 3_600_000_000_000

  datatype Option<+T> = None | Some(value: T)

  function Max(a: int, b: int): int { if a < b then b else a }

  function Min(a: int, b: int): int { if b < a then b else a }

  // Go's integer division rounds toward zero; Dafny's does not for negative operands.
  function Halve(d: int): int { if 0 <= d then d / 2 else -((-d) / 2) }

  // What a row stores for an instant: the second it lies in.
  function ToUnix(t: int): int { t / 1_000_000_000 }

  // The instant a stored second reads back as.
  function FromUnix(n: int): int { n * 1_000_000_000 }

  // Comparing stored seconds agrees with comparing the instant they read back as.
  lemma FloorOrder(n: int, t: int)
    ensures n <= ToUnix(t) <==> FromUnix(n) <= t
    ensures ToUnix(FromUnix(n)) == n
  {
  }

  lemma FloorMonotone(s: int, t: int)
    requires s <= t
    ensures ToUnix(s) <= ToUnix(t)
  {
  }
}
