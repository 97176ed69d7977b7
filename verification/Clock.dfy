/**
 Instants as Go's `time.Time` exposes them: whole Unix seconds, which may be
 negative, and a nanosecond remainder. Clocks are never read in this model; an
 instant the program would take from `time.Now` is a parameter.
 */
module Clock {
  type Nanos = n: int | 0 <= n < 1_000_000_000

  datatype Time = Time(sec: int, nsec: Nanos) {
    /** `Time.IsZero`: midnight of 1 January of year 1. */
    predicate IsZero() {
      sec == -62_135_596_800 && nsec == 0
    }
  }

  /** `time.Unix`: a nanosecond count of a second or more carries into the seconds. */
  function Unix(sec: int, nsec: nat): Time {
    Time(sec + nsec / 1_000_000_000, nsec % 1_000_000_000)
  }
}
