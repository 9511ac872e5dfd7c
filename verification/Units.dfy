/** Instants and durations are integers in nanoseconds, as Go counts them. */
module Units {
  const MICROSECOND: int := 1_000
  const SECOND: int := 1_000_000_000
  const MINUTE: int := 60 * SECOND
  const DAY: int := 1440 * MINUTE

  function Min(a: int, b: int): int { if a < b then a else b }

  function Max(a: int, b: int): int { if a < b then b else a }
}
