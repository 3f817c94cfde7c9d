/** Java `long` arithmetic and the three `java.util.concurrent.TimeUnit`
    conversions the upload handler uses to split a nanosecond interval into
    whole minutes and leftover whole seconds. */
module TimeUnits {

  const LongMax: int := 0x7fff_ffff_ffff_ffff
  const LongMin: int := -0x8000_0000_0000_0000
  const NanosPerSecond: int := 1_000_000_000
  const NanosPerMinute: int := 60_000_000_000
  const SecondsPerMinute: int := 60

  /** A value of Java's 64-bit signed `long`. */
  predicate IsLong(x: int) {
    LongMin <= x <= LongMax
  }

  /** Two's-complement wrap-around of a `long` result. */
  function WrapLong(x: int): (r: int)
    ensures IsLong(r)
    ensures (r - x) % 0x1_0000_0000_0000_0000 == 0
    ensures IsLong(x) ==> r == x
  {
    (x - LongMin) % 0x1_0000_0000_0000_0000 + LongMin
  }

  /** Java's `/` on integers: the quotient truncated toward zero. */
  function Quot(a: int, b: int): (q: int)
    requires b > 0
    ensures a >= 0 ==> 0 <= a - b * q < b
    ensures a < 0 ==> -b < a - b * q <= 0
  {
    if a >= 0 then a / b else -((-a) / b)
  }

  /** `TimeUnit.NANOSECONDS.toMinutes(d)`. */
  function NanosToMinutes(d: int): (m: int)
    ensures d >= 0 ==> 0 <= d - NanosPerMinute * m < NanosPerMinute
    ensures d < 0 ==> -NanosPerMinute < d - NanosPerMinute * m <= 0
  {
    Quot(d, NanosPerMinute)
  }

  /** `TimeUnit.NANOSECONDS.toSeconds(d)`. */
  function NanosToSeconds(d: int): (s: int)
    ensures d >= 0 ==> 0 <= d - NanosPerSecond * s < NanosPerSecond
    ensures d < 0 ==> -NanosPerSecond < d - NanosPerSecond * s <= 0
  {
    Quot(d, NanosPerSecond)
  }

  /** `TimeUnit.MINUTES.toSeconds(m)`: multiplies by 60, saturating at the
      `long` bounds instead of overflowing. */
  function MinutesToSeconds(m: int): (s: int)
    ensures IsLong(m) ==> IsLong(s)
    ensures -(LongMax / SecondsPerMinute) <= m <= LongMax / SecondsPerMinute ==> s == SecondsPerMinute * m
  {
    if m > LongMax / SecondsPerMinute then LongMax
    else if m < -(LongMax / SecondsPerMinute) then LongMin
    else m * SecondsPerMinute
  }

  /** The interval `endTime - startTime` as computed on two `long`s. */
  function Duration(startTime: int, endTime: int): (d: int)
    requires IsLong(startTime) && IsLong(endTime)
    ensures IsLong(d)
    ensures IsLong(endTime - startTime) ==> d == endTime - startTime
  {
    WrapLong(endTime - startTime)
  }

  /** Whole minutes and leftover whole seconds of an interval. */
  datatype Elapsed = Elapsed(minutes: int, seconds: int)

  /** The split performed by the upload handler. */
  function Split(durationNs: int): (e: Elapsed)
    requires IsLong(durationNs)
    ensures e.minutes == Quot(durationNs, NanosPerMinute)
    ensures SecondsPerMinute * e.minutes + e.seconds == Quot(durationNs, NanosPerSecond)
    ensures durationNs >= 0 ==> 0 <= e.seconds < SecondsPerMinute
    ensures durationNs < 0 ==> -SecondsPerMinute < e.seconds <= 0
  {
    var minutes := NanosToMinutes(durationNs);
    MinutesNeverSaturate(durationNs);
    NestedQuot(durationNs);
    Elapsed(minutes, NanosToSeconds(durationNs) - MinutesToSeconds(minutes))
  }

  /** The minute count of any `long` interval is far inside the range where
      `MINUTES.toSeconds` saturates. */
  lemma MinutesNeverSaturate(d: int)
    requires IsLong(d)
    ensures -(LongMax / SecondsPerMinute) <= NanosToMinutes(d) <= LongMax / SecondsPerMinute
    ensures MinutesToSeconds(NanosToMinutes(d)) == SecondsPerMinute * NanosToMinutes(d)
  {
    var q := Quot(d, NanosPerMinute);
    assert -154_000_000 <= q <= 154_000_000;
  }

  /** Truncating division is odd: negating the dividend negates the quotient. */
  lemma QuotNeg(a: int, b: int)
    requires b > 0
    ensures Quot(-a, b) == -Quot(a, b)
  {
  }

  /** Whole minutes are whole seconds divided by 60, both truncated:
      `d / 60e9 == (d / 1e9) / 60`. */
  lemma NestedQuot(d: int)
    ensures NanosToMinutes(d) == Quot(NanosToSeconds(d), SecondsPerMinute)
  {
    if d >= 0 {
      NestedQuotNonNegative(d);
    } else {
      NestedQuotNonNegative(-d);
      QuotNeg(d, NanosPerSecond);
      QuotNeg(d, NanosPerMinute);
      QuotNeg(NanosToSeconds(-d), SecondsPerMinute);
    }
  }

  lemma NestedQuotNonNegative(d: int)
    requires d >= 0
    ensures NanosToMinutes(d) == Quot(NanosToSeconds(d), SecondsPerMinute)
  {
    var s := Quot(d, NanosPerSecond);
    var m := Quot(s, SecondsPerMinute);
    var r1 := d - NanosPerSecond * s;
    var r2 := s - SecondsPerMinute * m;
    assert d == NanosPerMinute * m + (NanosPerSecond * r2 + r1);
    assert 0 <= NanosPerSecond * r2 + r1 < NanosPerMinute;
  }
}
