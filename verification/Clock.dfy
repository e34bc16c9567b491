// Instants are whole milliseconds since the epoch, the way the source's dates count them.
// A local day is taken to have 24 hours.
module Clock {
  function Mins(n: int): int { n * 60_000 }

  function Hours(n: int): int { n * 3_600_000 }

  function Days(n: int): int { n * 86_400_000 }

  function Max(a: int, b: int): int { if a < b then b else a }
}
