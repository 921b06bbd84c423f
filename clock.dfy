/** Microsecond timestamps: `getMicrosecond` and the relative timestamp of each
    recorded frame, in `unsigned long long` arithmetic. */
module Clock {
  import opened CTypes

  const MICROS_PER_SECOND: int := 1_000_000
  const NANOS_PER_MICRO: int := 1000
  const NANOS_PER_SECOND: int := 1_000_000_000

  /** A `struct timespec` as filled in by the clock; the reading is an input. */
  datatype Timespec = Timespec(tvSec: I64, tvNsec: I64)

  /** A reading of the form the clock produces: a non-negative second count and a
      nanosecond field in [0, 10^9). */
  predicate Normalized(t: Timespec)
  {
    0 <= t.tvSec && 0 <= t.tvNsec < NANOS_PER_SECOND
  }

  /** `getMicrosecond`: `tv_sec * 1000000ULL + tv_nsec / 1000ULL`. Both operands are
      converted to `unsigned long long`, the product and the sum wrap modulo 2^64,
      and the division is the unsigned (truncating) one. */
  function GetMicrosecond(t: Timespec): (r: U64)
  {
    ToU64(ToU64(ToU64(t.tvSec) * MICROS_PER_SECOND) + ToU64(t.tvNsec) / NANOS_PER_MICRO)
  }

  /** The relative timestamp `getMicrosecond() - firstTimestamp`, an unsigned
      subtraction that wraps when the clock reading is behind `first`. */
  function Elapsed(now: U64, first: U64): (r: U64)
  {
    ToU64(now - first)
  }

  /** For a reading that does not overflow 64 bits, the result is the exact number of
      whole microseconds, and dividing it back recovers the second count and the
      microseconds truncated from the nanosecond field. */
  lemma {:induction false} GetMicrosecondExact(t: Timespec)
    requires Normalized(t)
    requires t.tvSec * MICROS_PER_SECOND + t.tvNsec / NANOS_PER_MICRO < U64_LIMIT
    ensures GetMicrosecond(t) == t.tvSec * MICROS_PER_SECOND + t.tvNsec / NANOS_PER_MICRO
    ensures GetMicrosecond(t) / MICROS_PER_SECOND == t.tvSec
    ensures GetMicrosecond(t) % MICROS_PER_SECOND == t.tvNsec / NANOS_PER_MICRO
  {
    var m := t.tvNsec / NANOS_PER_MICRO;
    assert 0 <= m < MICROS_PER_SECOND;
    assert ToU64(t.tvSec) == t.tvSec;
    assert ToU64(t.tvNsec) == t.tvNsec;
    assert ToU64(t.tvSec) * MICROS_PER_SECOND < U64_LIMIT;
    assert ToU64(t.tvSec * MICROS_PER_SECOND) == t.tvSec * MICROS_PER_SECOND;
    var v := t.tvSec * MICROS_PER_SECOND + m;
    assert GetMicrosecond(t) == v;
    DivModUnique(v, t.tvSec, m);
  }

  /** Truncation: two readings within the same microsecond give the same value. */
  lemma TruncatesWithinMicrosecond(t: Timespec, u: Timespec)
    requires t.tvSec == u.tvSec && 0 <= t.tvNsec && 0 <= u.tvNsec
    requires t.tvNsec / NANOS_PER_MICRO == u.tvNsec / NANOS_PER_MICRO
    ensures GetMicrosecond(t) == GetMicrosecond(u)
  {
  }

  /** Whenever the clock has not gone behind `first`, the relative timestamp is the plain
      difference; in particular a reading equal to `first` gives 0. */
  lemma ElapsedExact(now: U64, first: U64)
    requires first <= now
    ensures Elapsed(now, first) == now - first
    ensures now == first ==> Elapsed(now, first) == 0
  {
  }

  /** The relative timestamp always determines the reading back: adding it to `first`
      modulo 2^64 gives `now`, even when the subtraction wrapped. */
  lemma ElapsedRoundTrip(now: U64, first: U64)
    ensures ToU64(first + Elapsed(now, first)) == now
    ensures now < first ==> Elapsed(now, first) == now - first + U64_LIMIT
  {
    if now < first {
      assert Elapsed(now, first) == now - first + U64_LIMIT;
    } else {
      assert Elapsed(now, first) == now - first;
    }
  }

  /** Uniqueness of Euclidean division by 10^6. */
  lemma DivModUnique(v: int, q: int, m: int)
    requires 0 <= m < MICROS_PER_SECOND && v == q * MICROS_PER_SECOND + m
    ensures v / MICROS_PER_SECOND == q && v % MICROS_PER_SECOND == m
  {
  }
}
