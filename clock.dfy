/** Time as the parser handles it. Go's `time.Time` is reduced to a count of
    nanoseconds since the Unix epoch (UTC) and `time.Duration` to the 64-bit
    count of nanoseconds it is. Go's `int` is taken to be 64 bits wide. */
module Clock {

  newtype int64 = x: int | -0x8000_0000_0000_0000 <= x < 0x8000_0000_0000_0000

  /** `time.Second` in nanoseconds. */
  const NanosPerSecond: int := 1_000_000_000

  /** `time.Millisecond` in nanoseconds. */
  const NanosPerMilli: int := 1_000_000

  /** An instant, as nanoseconds since 1970-01-01 00:00:00 UTC. */
  datatype Time = Time(unixNanos: int) {

    /** `t.Add(d)`: the instant `d` nanoseconds later (earlier when `d` is
        negative). The result is after the receiver exactly for a positive
        `d`, before it exactly for a negative one, and the receiver itself
        for a zero `d`. */
    function Add(d: int64): (t: Time)
      ensures t.unixNanos > unixNanos <==> d > 0
      ensures t.unixNanos < unixNanos <==> d < 0
      ensures d == 0 ==> t == this
    {
      Time(unixNanos + d as int)
    }

    /** `t.Unix()`: the whole seconds since the epoch, rounded down. */
    function Unix(): (secs: int)
      ensures secs * NanosPerSecond <= unixNanos < (secs + 1) * NanosPerSecond
    {
      unixNanos / NanosPerSecond
    }
  }

  /** Go's zero `time.Time`: January 1 of year 1, 00:00:00 UTC. */
  const ZeroTime: Time := Time(-62_135_596_800 * NanosPerSecond)

  /** The zero time lies 62135596800 seconds before the epoch. */
  lemma ZeroTimeUnix()
    ensures ZeroTime.Unix() == -62_135_596_800
  {
  }

  /** Moving a time by whole seconds moves its `Unix()` reading by as many. */
  lemma UnixAddWholeSeconds(t: Time, d: int64)
    requires d as int % NanosPerSecond == 0
    ensures t.Add(d).Unix() == t.Unix() + d as int / NanosPerSecond
  {
    var q := d as int / NanosPerSecond;
    assert d as int == q * NanosPerSecond;
    var s := t.Unix();
    assert t.Add(d).unixNanos == t.unixNanos + q * NanosPerSecond;
    assert (s + q) * NanosPerSecond <= t.Add(d).unixNanos < (s + q + 1) * NanosPerSecond;
  }

  /** An integer reduced into int64 the way two's-complement arithmetic wraps it. */
  function WrapInt64(x: int): (r: int64)
    ensures (x - r as int) % 0x1_0000_0000_0000_0000 == 0
    ensures -0x8000_0000_0000_0000 <= x < 0x8000_0000_0000_0000 ==> r as int == x
  {
    ((x + 0x8000_0000_0000_0000) % 0x1_0000_0000_0000_0000 - 0x8000_0000_0000_0000) as int64
  }

  /** `c.Int("interval") * int(time.Millisecond)` (main.go:327): the sampling
      interval given in milliseconds, as a Duration, in 64-bit arithmetic. */
  function IntervalNanos(millis: int64): (r: int64)
    ensures (millis as int * NanosPerMilli - r as int) % 0x1_0000_0000_0000_0000 == 0
  {
    WrapInt64(millis as int * NanosPerMilli)
  }

  /** Intervals up to about 292 years are converted exactly. */
  lemma IntervalExact(millis: int64)
    requires -9_223_372_036_854 <= millis as int <= 9_223_372_036_854
    ensures IntervalNanos(millis) as int == millis as int * NanosPerMilli
  {
  }

  /** One millisecond more and the product wraps to a negative duration. */
  lemma IntervalWraps()
    ensures IntervalNanos(9_223_372_036_855) < 0
  {
  }

  /** 2^58 milliseconds are 2^64 * 15625 nanoseconds, which wrap to a zero
      interval, so every record then carries the start time. */
  lemma IntervalWrapsToZero()
    ensures IntervalNanos(0x400_0000_0000_0000) == 0
  {
  }
}
