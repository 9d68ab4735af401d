/** What several components share: optional values, times of day, and sequences. */
module Common {
  datatype Option<T> = None | Some(value: T)

  /** The largest time that dhclient.c and dispatch.c count with. */
  const TIME_MAX: int := 0x7fff_ffff

  /** A second in microseconds. */
  const SECOND: int := 1000000

  datatype Timeval = Timeval(sec: int, usec: int) {
    predicate Ok() { 0 <= usec < SECOND }

    function Micros(): int { sec * SECOND + usec }

    predicate Later(t: Timeval) { sec > t.sec || (sec == t.sec && usec > t.usec) }
  }

  function Min(a: int, b: int): int { if b < a then b else a }

  function Max(a: int, b: int): int { if b > a then b else a }

  /** The sequence without the element at `i`, if it has one. */
  function Without<T>(s: seq<T>, i: nat): seq<T> {
    if i < |s| then s[..i] + s[i + 1..] else s
  }
}
