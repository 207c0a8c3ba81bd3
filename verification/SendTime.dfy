/** The 24-bit absolute send time of the RTP header extension and the difference of two of them. */
module SendTime {

  const TWO_24: int := 0x100_0000
  const TWO_32: int := 0x1_0000_0000
  const FRACTION: int := 0x4_0000  // 1 << kAbsSendTimeFraction

  function AsInt32(u: int): int
    requires 0 <= u < TWO_32
  {
    if u < TWO_32 / 2 then u else u - TWO_32
  }

  /** Division of 64-bit integers, which truncates towards zero. */
  function TruncDiv(a: int, b: int): int
    requires b > 0
  {
    if a >= 0 then a / b else -(-a / b)
  }

  /** `static_cast<int32_t>((now - previous) << 8) >> 8` in 32-bit arithmetic. */
  function TickDelta(now: nat, previous: nat): int
    requires now < TWO_24 && previous < TWO_24
  {
    var difference := (now - previous) % TWO_32;
    AsInt32(difference * 256 % TWO_32) / 256
  }

  function TimestampMicros(now: nat): int
    requires now < TWO_24
  {
    TruncDiv(now * 1000000, FRACTION)
  }

  function DeltaMicros(now: nat, previous: nat): int
    requires now < TWO_24 && previous < TWO_24
  {
    TruncDiv(TickDelta(now, previous) * 1000000, FRACTION)
  }

  /** `d` is the tick difference of `now` and `previous` read as the nearer way around the clock. */
  ghost predicate IsWrappedDifference(d: int, now: int, previous: int) {
    -TWO_24 / 2 <= d < TWO_24 / 2 && exists k: int :: d == now - previous + k * TWO_24
  }

  /** The tick difference is the unique value in [-2^23, 2^23) congruent to the difference. */
  lemma TickDeltaIsUnique(now: nat, previous: nat)
    requires now < TWO_24 && previous < TWO_24
    ensures IsWrappedDifference(TickDelta(now, previous), now, previous)
    ensures forall d :: IsWrappedDifference(d, now, previous) ==> d == TickDelta(now, previous)
  {
    TickDeltaWraps(now, previous);
    forall d | IsWrappedDifference(d, now, previous) ensures d == TickDelta(now, previous) {
      var k :| d == now - previous + k * TWO_24;
      WrappedOnce(now - previous, k, Wraps(now, previous));
    }
  }

  /** How often the clock wrapped between two send times, the nearer way around: -1, 0 or 1. */
  function Wraps(now: nat, previous: nat): int {
    if now - previous >= TWO_24 / 2 then -1 else if now - previous < -TWO_24 / 2 then 1 else 0
  }

  lemma TickDeltaWraps(now: nat, previous: nat)
    requires now < TWO_24 && previous < TWO_24
    ensures TickDelta(now, previous) == now - previous + Wraps(now, previous) * TWO_24
    ensures -TWO_24 / 2 <= TickDelta(now, previous) < TWO_24 / 2
  {
    var difference := (now - previous) % TWO_32;
    ShiftDropsHighByte(difference);
    ShiftBackExtendsSign(difference % TWO_24);
  }

  lemma ShiftDropsHighByte(u: int)
    requires 0 <= u < TWO_32
    ensures u * 256 % TWO_32 == u % TWO_24 * 256
  {}

  lemma ShiftBackExtendsSign(x: int)
    requires 0 <= x < TWO_24
    ensures AsInt32(x * 256) / 256 == if x < TWO_24 / 2 then x else x - TWO_24
  {}

  lemma WrappedOnce(d: int, j: int, k: int)
    requires -TWO_24 / 2 <= d + j * TWO_24 < TWO_24 / 2 && -TWO_24 / 2 <= d + k * TWO_24 < TWO_24 / 2
    ensures j == k
  {}

  /** The true send times behind the 24-bit ones, and gaps shorter than half the clock. */
  ghost predicate GapsFit(times: seq<int>) {
    forall i :: 0 < i < |times| ==> -TWO_24 / 2 <= times[i] - times[i - 1] < TWO_24 / 2
  }

  function Ticks(times: seq<int>): int
    requires |times| > 0
  {
    if |times| == 1 then 0
    else
      var n := |times| - 1;
      Ticks(times[..n]) + TickDelta(times[n] % TWO_24, times[n - 1] % TWO_24)
  }

  function Micros(times: seq<int>): int
    requires |times| > 0
  {
    if |times| == 1 then 0
    else
      var n := |times| - 1;
      Micros(times[..n]) + DeltaMicros(times[n] % TWO_24, times[n - 1] % TWO_24)
  }

  /** The difference of two 24-bit times is the true gap if and only if that is shorter than half the clock. */
  lemma GapRecovered(a: int, b: int)
    ensures TickDelta(b % TWO_24, a % TWO_24) == b - a <==> -TWO_24 / 2 <= b - a < TWO_24 / 2
  {
    TickDeltaIsUnique(b % TWO_24, a % TWO_24);
    assert b - a == b % TWO_24 - a % TWO_24 + (b / TWO_24 - a / TWO_24) * TWO_24;
  }

  /** Over any run of send times, however often the clock wraps, the tick deltas add up to the true
      elapsed ticks. */
  lemma {:induction false} TicksAddUp(times: seq<int>)
    requires |times| > 0 && GapsFit(times)
    ensures Ticks(times) == times[|times| - 1] - times[0]
  {
    var n := |times| - 1;
    if n > 0 {
      TicksAddUp(times[..n]);
      GapRecovered(times[n - 1], times[n]);
    }
  }

  lemma TruncationLosesLess(a: int)
    ensures -FRACTION < TruncDiv(a, FRACTION) * FRACTION - a < FRACTION
  {}

  /** The truncated microsecond deltas of `n` gaps add up to within `n` microseconds of the exact
      elapsed time. */
  lemma {:induction false} MicrosAddUp(times: seq<int>)
    requires |times| > 0 && GapsFit(times)
    ensures var error := Micros(times) * FRACTION - (times[|times| - 1] - times[0]) * 1000000;
            var n := |times| - 1;
            if n == 0 then error == 0 else -n * FRACTION < error < n * FRACTION
  {
    var n := |times| - 1;
    if n > 0 {
      MicrosAddUp(times[..n]);
      GapRecovered(times[n - 1], times[n]);
      TruncationLosesLess((times[n] - times[n - 1]) * 1000000);
    }
  }

  lemma TruncatedDifference(a: int, b: int)
    ensures -1 <= a / FRACTION - b / FRACTION - TruncDiv(a - b, FRACTION) <= 1
  {}

  /** The microsecond delta of two send times is the difference of their timestamps to within one
      microsecond, apart from the 64 seconds after which the clock wraps. */
  lemma DeltaIsTimestampDifference(now: nat, previous: nat)
    requires now < TWO_24 && previous < TWO_24
    ensures -1 <= TimestampMicros(now) - TimestampMicros(previous) + Wraps(now, previous) * 64000000
                  - DeltaMicros(now, previous) <= 1
  {
    var a := (now + Wraps(now, previous) * TWO_24) * 1000000;
    TickDeltaWraps(now, previous);
    TruncatedDifference(a, previous * 1000000);
    assert a == now * 1000000 + Wraps(now, previous) * 64000000 * FRACTION;
  }

  /** The timestamp is the exact time rounded down to whole microseconds. */
  lemma TimestampRoundsDown(now: nat)
    requires now < TWO_24
    ensures TimestampMicros(now) * FRACTION <= now * 1000000 < (TimestampMicros(now) + 1) * FRACTION
  {}

  /** The microsecond delta is the exact difference rounded towards zero. */
  lemma DeltaRoundsTowardsZero(now: nat, previous: nat)
    requires now < TWO_24 && previous < TWO_24
    ensures var exact, d := TickDelta(now, previous) * 1000000, DeltaMicros(now, previous);
            if exact >= 0 then d >= 0 && d * FRACTION <= exact < (d + 1) * FRACTION
            else d <= 0 && (d - 1) * FRACTION < exact <= d * FRACTION
  {}
}
