/** The requests-per-second estimator (`DynamicRps`) and its tier rules.

    The estimator counts requests since its last reset and reads an average
    by dividing that count by the whole seconds elapsed; a read that finds
    more than a minute elapsed also resets the count. The current rate
    places the system in one of three tiers, and each tier shrinks the
    validation window towards a floor of ten seconds and moves each
    threshold a fixed step towards its cap. */
module RequestRate {
  import opened JavaBase
  import opened Logging

  /** Seconds after which a read resets the counter (not configurable). */
  const RpsIntervalSeconds: int := 60
  const DefaultHighRps: Int32 := 1000
  const DefaultMediumRps: Int32 := 500

  /** The smallest window, in seconds, an adjustment may produce. */
  const MinAdjustedWindow: int := 10

  datatype Tier = High | Medium | Base

  /** The tier of a rate: above `highRps`, else above `mediumRps`, else the
      base tier; both comparisons are strict. */
  function TierOf(rps: int, highRps: int, mediumRps: int): (tier: Tier)
    ensures tier == High <==> rps > highRps
    ensures tier == Base <==> rps <= highRps && rps <= mediumRps
  {
    if rps > highRps then High
    else if rps > mediumRps then Medium
    else Base
  }

  /** Tier boundaries are strict: a rate equal to `highRps` is in the medium
      tier, a rate equal to `mediumRps` in the base tier, and a higher rate
      is never in a lower tier. */
  lemma TierBoundaries(highRps: int, mediumRps: int)
    requires mediumRps < highRps
    ensures TierOf(highRps, highRps, mediumRps) == Medium
    ensures TierOf(mediumRps, highRps, mediumRps) == Base
    ensures TierOf(highRps + 1, highRps, mediumRps) == High
    ensures TierOf(mediumRps + 1, highRps, mediumRps) == Medium
  {
  }

  function TierRank(tier: Tier): nat {
    match tier
    case Base => 0
    case Medium => 1
    case High => 2
  }

  lemma TierIsMonotone(lower: int, higher: int, highRps: int, mediumRps: int)
    requires lower <= higher
    ensures TierRank(TierOf(lower, highRps, mediumRps)) <= TierRank(TierOf(higher, highRps, mediumRps))
  {
  }

  /** The average the estimator reports for `count` requests over `elapsed`
      whole seconds: zero when no whole second has passed, otherwise the
      truncated quotient narrowed back to `int`. */
  function AverageRps(count: Int32, elapsed: int): (rps: Int32)
    ensures elapsed == 0 ==> rps == 0
    ensures elapsed > 0 && count >= 0 ==> 0 <= rps <= count && rps == count / elapsed
    ensures elapsed > 0 && count >= 0 ==> rps * elapsed <= count < (rps + 1) * elapsed
  {
    if elapsed == 0 then 0
    else if count >= 0 && elapsed > 0 then
      QuotientOfNaturals(count, elapsed);
      ToInt32(Quot(count, elapsed))
    else
      ToInt32(Quot(count, elapsed))
  }

  /** Truncating division of a non-negative count by a positive number of
      seconds is floor division, and stays within the count. */
  lemma QuotientOfNaturals(count: int, elapsed: int)
    requires count >= 0 && elapsed > 0
    ensures Quot(count, elapsed) == count / elapsed
    ensures 0 <= count / elapsed <= count
    ensures (count / elapsed) * elapsed <= count < (count / elapsed + 1) * elapsed
  {
    var q := count / elapsed;
    DivisionOfNatural(count, elapsed);
    assert (q + 1) * elapsed == q * elapsed + elapsed;
  }

  /** Whether a read at `now` resets a counter last reset at `resetTime`:
      more than a minute of whole seconds has elapsed, that is, at least 61
      full seconds of nanoseconds. */
  function ResetsCounter(resetTime: int, now: int): (reset: bool)
    ensures reset <==> now - resetTime >= (RpsIntervalSeconds + 1) * NanosPerSecond
    ensures reset ==> DurationSeconds(resetTime, now) != 0
  {
    DurationAtLeast(resetTime, now, RpsIntervalSeconds + 1);
    DurationSeconds(resetTime, now) > RpsIntervalSeconds
  }

  /** What a read of the adjusted window produces: the window, or the
      `IllegalArgumentException` of an unknown SLF4J level name. */
  datatype WindowOutcome = Window(seconds: Int32) | IllegalArgument

  /** The validation window for a rate: a third of it in the high tier, a
      half in the medium tier (in both cases at least ten seconds, which
      lengthens a window shorter than that), unchanged otherwise. */
  function AdjustedValidationWindow(validationWindow: Int32, rps: int, highRps: int, mediumRps: int): (window: Int32)
    ensures TierOf(rps, highRps, mediumRps) != Base ==> window >= MinAdjustedWindow
    ensures TierOf(rps, highRps, mediumRps) != Base && validationWindow >= MinAdjustedWindow ==> window <= validationWindow
    ensures TierOf(rps, highRps, mediumRps) != Base && validationWindow < MinAdjustedWindow ==> window == MinAdjustedWindow
    ensures TierOf(rps, highRps, mediumRps) == High && validationWindow >= 0 ==> window == Max(MinAdjustedWindow, validationWindow / 3)
    ensures TierOf(rps, highRps, mediumRps) == Medium && validationWindow >= 0 ==> window == Max(MinAdjustedWindow, validationWindow / 2)
    ensures TierOf(rps, highRps, mediumRps) == Base ==> window == validationWindow
  {
    match TierOf(rps, highRps, mediumRps)
    case High => Max(MinAdjustedWindow, Quot(validationWindow, 3))
    case Medium => Max(MinAdjustedWindow, Quot(validationWindow, 2))
    case Base => validationWindow
  }

  /** `Math.min(cap, threshold + step)`, with Java's `int` overflow on the sum. */
  function Raise(threshold: Int32, step: nat, cap: Int32): (raised: Int32)
    requires step <= 5 && cap <= 99
    ensures raised <= cap
    ensures threshold <= cap ==> threshold <= raised
    ensures threshold + step <= cap ==> raised == threshold + step
    ensures cap - step < threshold <= MaxInt32 - step ==> raised == cap
  {
    Min(cap, ToInt32(threshold + step))
  }

  lemma RaiseGrowsWithStep(threshold: Int32, small: nat, large: nat, cap: Int32)
    requires small <= large <= 5 && cap <= 99 && threshold <= cap
    ensures Raise(threshold, small, cap) <= Raise(threshold, large, cap)
  {
    assert ToInt32(threshold + small) == threshold + small;
    assert ToInt32(threshold + large) == threshold + large;
  }

  /** The error threshold for a rate: +2 in the high tier, +1 in the medium
      tier, capped at 99; a threshold already above the cap is lowered to it
      (short of Java's `int` overflow on the sum). */
  function AdjustedErrorThreshold(errorThreshold: Int32, rps: int, highRps: int, mediumRps: int): (threshold: Int32)
    ensures TierOf(rps, highRps, mediumRps) != Base ==> threshold <= 99
    ensures errorThreshold <= 99 ==> errorThreshold <= threshold
    ensures TierOf(rps, highRps, mediumRps) == High && errorThreshold <= MaxInt32 - 2 ==> threshold == Min(99, errorThreshold + 2)
    ensures TierOf(rps, highRps, mediumRps) == Medium && errorThreshold <= MaxInt32 - 1 ==> threshold == Min(99, errorThreshold + 1)
    ensures TierOf(rps, highRps, mediumRps) == Base ==> threshold == errorThreshold
  {
    match TierOf(rps, highRps, mediumRps)
    case High => Raise(errorThreshold, 2, 99)
    case Medium => Raise(errorThreshold, 1, 99)
    case Base => errorThreshold
  }

  /** The warn threshold for a rate: +2 in the high tier, +1 in the medium
      tier, capped at 97; a threshold already above the cap is lowered to it
      (short of Java's `int` overflow on the sum). */
  function AdjustedWarnThreshold(warnThreshold: Int32, rps: int, highRps: int, mediumRps: int): (threshold: Int32)
    ensures TierOf(rps, highRps, mediumRps) != Base ==> threshold <= 97
    ensures warnThreshold <= 97 ==> warnThreshold <= threshold
    ensures TierOf(rps, highRps, mediumRps) == High && warnThreshold <= MaxInt32 - 2 ==> threshold == Min(97, warnThreshold + 2)
    ensures TierOf(rps, highRps, mediumRps) == Medium && warnThreshold <= MaxInt32 - 1 ==> threshold == Min(97, warnThreshold + 1)
    ensures TierOf(rps, highRps, mediumRps) == Base ==> threshold == warnThreshold
  {
    match TierOf(rps, highRps, mediumRps)
    case High => Raise(warnThreshold, 2, 97)
    case Medium => Raise(warnThreshold, 1, 97)
    case Base => warnThreshold
  }

  /** The info threshold for a rate: +5 in the high tier, +3 in the medium
      tier, capped at 95; a threshold already above the cap is lowered to it
      (short of Java's `int` overflow on the sum). */
  function AdjustedInfoThreshold(infoThreshold: Int32, rps: int, highRps: int, mediumRps: int): (threshold: Int32)
    ensures TierOf(rps, highRps, mediumRps) != Base ==> threshold <= 95
    ensures infoThreshold <= 95 ==> infoThreshold <= threshold
    ensures TierOf(rps, highRps, mediumRps) == High && infoThreshold <= MaxInt32 - 5 ==> threshold == Min(95, infoThreshold + 5)
    ensures TierOf(rps, highRps, mediumRps) == Medium && infoThreshold <= MaxInt32 - 3 ==> threshold == Min(95, infoThreshold + 3)
    ensures TierOf(rps, highRps, mediumRps) == Base ==> threshold == infoThreshold
  {
    match TierOf(rps, highRps, mediumRps)
    case High => Raise(infoThreshold, 5, 95)
    case Medium => Raise(infoThreshold, 3, 95)
    case Base => infoThreshold
  }

  /** For thresholds at or below their caps, a higher rate never leaves a
      threshold lower than a lower rate does. */
  lemma ThresholdsGrowWithRate(errorThreshold: Int32, warnThreshold: Int32, infoThreshold: Int32,
                               lower: int, higher: int, highRps: int, mediumRps: int)
    requires lower <= higher
    requires errorThreshold <= 99 && warnThreshold <= 97 && infoThreshold <= 95
    ensures AdjustedErrorThreshold(errorThreshold, lower, highRps, mediumRps)
         <= AdjustedErrorThreshold(errorThreshold, higher, highRps, mediumRps)
    ensures AdjustedWarnThreshold(warnThreshold, lower, highRps, mediumRps)
         <= AdjustedWarnThreshold(warnThreshold, higher, highRps, mediumRps)
    ensures AdjustedInfoThreshold(infoThreshold, lower, highRps, mediumRps)
         <= AdjustedInfoThreshold(infoThreshold, higher, highRps, mediumRps)
  {
    TierIsMonotone(lower, higher, highRps, mediumRps);
    if TierOf(lower, highRps, mediumRps) == Medium && TierOf(higher, highRps, mediumRps) == High {
      RaiseGrowsWithStep(errorThreshold, 1, 2, 99);
      RaiseGrowsWithStep(warnThreshold, 1, 2, 97);
      RaiseGrowsWithStep(infoThreshold, 3, 5, 95);
    }
  }

  /** For a window of at least ten seconds, a higher rate never leaves a
      longer window than a lower rate does. */
  lemma WindowShrinksWithRate(validationWindow: Int32, lower: int, higher: int, highRps: int, mediumRps: int)
    requires lower <= higher && validationWindow >= MinAdjustedWindow
    ensures AdjustedValidationWindow(validationWindow, higher, highRps, mediumRps)
         <= AdjustedValidationWindow(validationWindow, lower, highRps, mediumRps)
  {
    TierIsMonotone(lower, higher, highRps, mediumRps);
    assert Quot(validationWindow, 3) <= Quot(validationWindow, 2);
  }

  /** With the default boundaries 1000 and 500, rates 501 to 1000 form the
      medium tier. */
  lemma DefaultTiers(rps: int)
    ensures TierOf(rps, DefaultHighRps, DefaultMediumRps) == Medium <==> 501 <= rps <= 1000
  {
  }

  class DynamicRps {
    var requestCount: Int32
    /** Clock reading (nanoseconds) of construction or of the last reset. */
    var lastResetTime: int
    const loggingSystem: LoggingSystem
    const highRps: Int32
    const mediumRps: Int32

    /** The thresholds arrive parsed; `now` is the clock at construction. */
    constructor (loggingSystem: LoggingSystem, now: int, highRps: Int32, mediumRps: Int32)
      ensures requestCount == 0 && lastResetTime == now
      ensures this.loggingSystem == loggingSystem
      ensures this.highRps == highRps && this.mediumRps == mediumRps
    {
      this.loggingSystem := loggingSystem;
      requestCount := 0;
      lastResetTime := now;
      this.highRps := highRps;
      this.mediumRps := mediumRps;
    }

    /** The state a read at `now` leaves behind, given the state before it:
        reset to zero at `now` when more than a minute had elapsed,
        untouched otherwise. */
    ghost predicate AfterRead(count: Int32, resetTime: int, now: int)
      reads this
    {
      if ResetsCounter(resetTime, now) then
        requestCount == 0 && lastResetTime == now
      else
        requestCount == count && lastResetTime == resetTime
    }

    /** Reads the average rate at clock reading `now`. */
    method GetAverageRPS(now: int) returns (rps: Int32)
      modifies this
      ensures rps == AverageRps(old(requestCount), DurationSeconds(old(lastResetTime), now))
      ensures AfterRead(old(requestCount), old(lastResetTime), now)
      // After a reset the estimator is in its zero-elapsed state at `now`,
      // so a second read at the same instant returns 0.
      ensures DurationSeconds(lastResetTime, now) == 0
          <==> DurationSeconds(old(lastResetTime), now) == 0 || ResetsCounter(old(lastResetTime), now)
    {
      var secondsElapsed := DurationSeconds(lastResetTime, now);
      if secondsElapsed == 0 {
        return 0;
      }
      if secondsElapsed > RpsIntervalSeconds {
        var count := requestCount;
        requestCount := 0;
        lastResetTime := now;
        return ToInt32(Quot(count, secondsElapsed));
      }
      rps := ToInt32(Quot(requestCount, secondsElapsed));
    }

    /** Counts one request; Java's `int` wraps around at the top. */
    method IncrementRequestCount()
      modifies this`requestCount
      ensures requestCount == ToInt32(old(requestCount) + 1)
      ensures old(requestCount) < MaxInt32 ==> requestCount == old(requestCount) + 1
    {
      requestCount := ToInt32(requestCount + 1);
    }

    /** Reads the ROOT level, then the rate. An adjusted window is logged at
        the ROOT level, so a ROOT level of FATAL or OFF raises
        `IllegalArgumentException` in an adjusted tier, after the read has
        already taken effect. */
    method GetAdjustedValidationWindow(validationWindow: Int32, now: int) returns (outcome: WindowOutcome)
      modifies this
      ensures outcome == IllegalArgument <==>
        TierOf(AverageRps(old(requestCount), DurationSeconds(old(lastResetTime), now)), highRps, mediumRps) != Base
        && !NamesSlf4jLevel(loggingSystem.rootLevel)
      ensures outcome.Window? ==> outcome.seconds == AdjustedValidationWindow(validationWindow,
        AverageRps(old(requestCount), DurationSeconds(old(lastResetTime), now)), highRps, mediumRps)
      ensures AfterRead(old(requestCount), old(lastResetTime), now)
    {
      var currentLogLevel := loggingSystem.rootLevel;
      var rps := GetAverageRPS(now);
      if TierOf(rps, highRps, mediumRps) != Base && !NamesSlf4jLevel(currentLogLevel) {
        return IllegalArgument;
      }
      outcome := Window(AdjustedValidationWindow(validationWindow, rps, highRps, mediumRps));
    }

    method GetAdjustedErrorThreshold(errorThreshold: Int32, now: int) returns (threshold: Int32)
      modifies this
      ensures threshold == AdjustedErrorThreshold(errorThreshold,
        AverageRps(old(requestCount), DurationSeconds(old(lastResetTime), now)), highRps, mediumRps)
      ensures AfterRead(old(requestCount), old(lastResetTime), now)
    {
      var rps := GetAverageRPS(now);
      threshold := AdjustedErrorThreshold(errorThreshold, rps, highRps, mediumRps);
    }

    method GetAdjustedWarnThreshold(warnThreshold: Int32, now: int) returns (threshold: Int32)
      modifies this
      ensures threshold == AdjustedWarnThreshold(warnThreshold,
        AverageRps(old(requestCount), DurationSeconds(old(lastResetTime), now)), highRps, mediumRps)
      ensures AfterRead(old(requestCount), old(lastResetTime), now)
    {
      var rps := GetAverageRPS(now);
      threshold := AdjustedWarnThreshold(warnThreshold, rps, highRps, mediumRps);
    }

    method GetAdjustedInfoThreshold(infoThreshold: Int32, now: int) returns (threshold: Int32)
      modifies this
      ensures threshold == AdjustedInfoThreshold(infoThreshold,
        AverageRps(old(requestCount), DurationSeconds(old(lastResetTime), now)), highRps, mediumRps)
      ensures AfterRead(old(requestCount), old(lastResetTime), now)
    {
      var rps := GetAverageRPS(now);
      threshold := AdjustedInfoThreshold(infoThreshold, rps, highRps, mediumRps);
    }
  }
}
