/** The sliding-window log-level controller (`DynamicLogLevel`) and the
    outcome record it keeps (`ValidationEvent`).

    The controller keeps the reported outcomes in insertion order, derives a
    success percentage from them after every change, maps that percentage
    to a level through three thresholds, and writes the ROOT level of the
    logging system only when the level changes. A scheduled task evicts the
    outcomes that have grown older than the window. */
module LogLevelControl {
  import opened JavaBase
  import opened Logging

  const DefaultValidationRangeSeconds: Int32 := 30
  const DefaultErrorThreshold: Int32 := 97
  const DefaultWarnThreshold: Int32 := 95
  const DefaultInfoThreshold: Int32 := 90
  const DefaultStartingLogLevel: LogLevel := ERROR

  /** One reported outcome and the clock reading (in nanoseconds) taken
      when it was reported. */
  datatype ValidationEvent = ValidationEvent(success: bool, timestamp: int)

  /** The content of one level-change record: previous level, new level and
      the success rate that caused the change. */
  datatype Transition = Transition(from: LogLevel, to: LogLevel, successRate: real)

  predicate AllSucceeded(events: seq<ValidationEvent>) {
    forall i :: 0 <= i < |events| ==> events[i].success
  }

  predicate AllFailed(events: seq<ValidationEvent>) {
    forall i :: 0 <= i < |events| ==> !events[i].success
  }

  /** The number of successful outcomes in the window. */
  function SuccessCount(events: seq<ValidationEvent>): (n: nat)
    ensures n <= |events|
    ensures n == |events| <==> AllSucceeded(events)
    ensures n == 0 <==> AllFailed(events)
  {
    if events == [] then 0
    else
      var init, last := events[..|events| - 1], events[|events| - 1];
      assert forall i :: 0 <= i < |init| ==> init[i] == events[i];
      SuccessCount(init) + (if last.success then 1 else 0)
  }

  /** Successes are counted one event at a time: a single event counts 1
      exactly when it succeeded, and the count of a concatenation is the
      sum of the counts of its parts. */
  lemma {:induction false} SuccessCountAdds(front: seq<ValidationEvent>, back: seq<ValidationEvent>)
    ensures SuccessCount(front + back) == SuccessCount(front) + SuccessCount(back)
    ensures forall e :: SuccessCount([e]) == (if e.success then 1 else 0)
    decreases |back|
  {
    forall e: ValidationEvent ensures SuccessCount([e]) == (if e.success then 1 else 0) {
      assert [e][..0] == [];
    }
    if back == [] {
      assert front + back == front;
    } else {
      var init := back[..|back| - 1];
      assert (front + back)[..|front + back| - 1] == front + init;
      SuccessCountAdds(front, init);
    }
  }

  lemma FractionTimesDenominator(s: real, n: real)
    requires n > 0.0
    ensures s / n * 100.0 * n == 100.0 * s
  {
    assert s / n * n == s;
  }

  lemma ScalingKeepsOrder(x: real, y: real, k: real)
    requires k > 0.0
    ensures x > y <==> x * k > y * k
  {
    if x > y {
      assert x * k - y * k == (x - y) * k;
    } else {
      assert y * k - x * k == (y - x) * k;
    }
  }

  lemma ProductAsReal(a: int, b: int)
    ensures (a * b) as real == a as real * b as real
  {
  }

  lemma RateBounds(c: nat, m: nat)
    requires 0 < m && c <= m
    ensures var rate := c as real / m as real * 100.0;
      && 0.0 <= rate <= 100.0
      && (rate == 100.0 <==> c == m)
      && (rate == 0.0 <==> c == 0)
  {
    var s, n := c as real, m as real;
    var rate := s / n * 100.0;
    FractionTimesDenominator(s, n);
    assert rate * n == 100.0 * s && 0.0 <= s <= n;
    // The order of `rate` against 0 and 100 is that of `100 * s` against 0
    // and `100 * n`.
    ScalingKeepsOrder(rate, 100.0, n);
    ScalingKeepsOrder(100.0, rate, n);
    ScalingKeepsOrder(rate, 0.0, n);
    ScalingKeepsOrder(0.0, rate, n);
    assert 0.0 * n == 0.0;
    if c == m {
      assert rate * n == 100.0 * n;
      assert rate == 100.0;
    } else {
      assert s < n;
      assert rate * n < 100.0 * n;
    }
    if c == 0 {
      assert rate * n == 0.0 * n;
      assert rate == 0.0;
    } else {
      assert rate * n > 0.0 * n;
    }
  }

  /** The percentage of successful outcomes, as an exact rational. */
  function SuccessRate(events: seq<ValidationEvent>): (rate: real)
    requires events != []
    ensures 0.0 <= rate <= 100.0
    ensures rate == 100.0 <==> AllSucceeded(events)
    ensures rate == 0.0 <==> AllFailed(events)
  {
    RateBounds(SuccessCount(events), |events|);
    SuccessCount(events) as real / |events| as real * 100.0
  }

  lemma RateComparison(c: nat, m: nat, threshold: int)
    requires m > 0
    ensures c as real / m as real * 100.0 > threshold as real <==> 100 * c > threshold * m
  {
    var s, n := c as real, m as real;
    var rate := s / n * 100.0;
    FractionTimesDenominator(s, n);
    ScalingKeepsOrder(rate, threshold as real, n);
    ProductAsReal(threshold, m);
    assert rate * n == 100.0 * s;
  }

  /** Comparing the rate with an integer threshold is the integer test
      `100 * successes > threshold * total`. */
  lemma RateAboveThreshold(events: seq<ValidationEvent>, threshold: int)
    requires events != []
    ensures SuccessRate(events) > threshold as real
        <==> 100 * SuccessCount(events) > threshold * |events|
  {
    RateComparison(SuccessCount(events), |events|, threshold);
  }

  /** The level for a success rate: checked from the quietest tier down,
      each with a strict comparison; at or below all three thresholds the
      level is DEBUG. */
  function DetermineLogLevel(successRate: real, errorThreshold: int, warnThreshold: int, infoThreshold: int): (level: LogLevel)
    ensures level in {ERROR, WARN, INFO, DEBUG}
    ensures level == ERROR <==> successRate > errorThreshold as real
    ensures level == DEBUG <==>
      successRate <= errorThreshold as real && successRate <= warnThreshold as real && successRate <= infoThreshold as real
  {
    if successRate > errorThreshold as real then ERROR
    else if successRate > warnThreshold as real then WARN
    else if successRate > infoThreshold as real then INFO
    else DEBUG
  }

  predicate ThresholdsOrdered(errorThreshold: int, warnThreshold: int, infoThreshold: int) {
    errorThreshold >= warnThreshold >= infoThreshold
  }

  /** With thresholds ordered as configured, each level owns one interval of
      rates, closed at its upper end: a rate equal to a threshold belongs to
      the tier below it. */
  lemma LevelTiers(successRate: real, errorThreshold: int, warnThreshold: int, infoThreshold: int)
    requires ThresholdsOrdered(errorThreshold, warnThreshold, infoThreshold)
    ensures var level := DetermineLogLevel(successRate, errorThreshold, warnThreshold, infoThreshold);
      && (level == ERROR <==> errorThreshold as real < successRate)
      && (level == WARN <==> warnThreshold as real < successRate <= errorThreshold as real)
      && (level == INFO <==> infoThreshold as real < successRate <= warnThreshold as real)
      && (level == DEBUG <==> successRate <= infoThreshold as real)
  {
  }

  /** A rate exactly at a threshold never selects that threshold's level. */
  lemma ThresholdsAreStrict(errorThreshold: int, warnThreshold: int, infoThreshold: int)
    requires ThresholdsOrdered(errorThreshold, warnThreshold, infoThreshold)
    ensures DetermineLogLevel(errorThreshold as real, errorThreshold, warnThreshold, infoThreshold) != ERROR
    ensures DetermineLogLevel(warnThreshold as real, errorThreshold, warnThreshold, infoThreshold) !in {ERROR, WARN}
    ensures DetermineLogLevel(infoThreshold as real, errorThreshold, warnThreshold, infoThreshold) == DEBUG
  {
  }

  /** A higher success rate never selects a more verbose level, whatever
      the order of the thresholds. */
  lemma LevelIsMonotone(lower: real, higher: real, errorThreshold: int, warnThreshold: int, infoThreshold: int)
    requires lower <= higher
    ensures Verbosity(DetermineLogLevel(higher, errorThreshold, warnThreshold, infoThreshold))
         <= Verbosity(DetermineLogLevel(lower, errorThreshold, warnThreshold, infoThreshold))
  {
  }

  /** A window holding only successes has rate 100 and selects ERROR as
      soon as the error threshold is below 100. */
  lemma AllSuccessSelectsError(events: seq<ValidationEvent>, errorThreshold: int, warnThreshold: int, infoThreshold: int)
    requires events != [] && AllSucceeded(events)
    requires errorThreshold < 100
    ensures DetermineLogLevel(SuccessRate(events), errorThreshold, warnThreshold, infoThreshold) == ERROR
  {
  }

  /** With the default thresholds a window holding only successes selects
      the default starting level, so under the default configuration the
      first successes leave the ROOT level where the controller put it. */
  lemma AllSuccessKeepsDefaultStartingLevel(events: seq<ValidationEvent>)
    requires events != [] && AllSucceeded(events)
    ensures DetermineLogLevel(SuccessRate(events), DefaultErrorThreshold, DefaultWarnThreshold, DefaultInfoThreshold)
         == DefaultStartingLogLevel
  {
    AllSuccessSelectsError(events, DefaultErrorThreshold, DefaultWarnThreshold, DefaultInfoThreshold);
  }

  /** With the default configuration the scheduled task evicts an event
      once it is 31 whole seconds old and keeps it until then. */
  lemma DefaultWindowCutoff(event: ValidationEvent, now: int)
    ensures IsExpired(event, now, DefaultValidationRangeSeconds)
        <==> now - event.timestamp >= 31 * NanosPerSecond
  {
  }

  /** Seven successes out of ten make a rate of exactly 70, which the
      default thresholds map to DEBUG: 70 is not above the info threshold. */
  lemma SeventyPercentSelectsDebugByDefault(events: seq<ValidationEvent>)
    requires |events| == 10 && SuccessCount(events) == 7
    ensures SuccessRate(events) == 70.0
    ensures DetermineLogLevel(SuccessRate(events), DefaultErrorThreshold, DefaultWarnThreshold, DefaultInfoThreshold) == DEBUG
  {
  }

  /** With the default thresholds a window holding only failures selects
      DEBUG: the fallback is unconditional. */
  lemma AllFailureSelectsDebugByDefault(events: seq<ValidationEvent>)
    requires events != [] && AllFailed(events)
    ensures DetermineLogLevel(SuccessRate(events), DefaultErrorThreshold, DefaultWarnThreshold, DefaultInfoThreshold) == DEBUG
  {
  }

  /** The eviction test of the scheduled task: the event's age in whole
      seconds, truncated, exceeds the window. For a window of at least zero
      seconds that is an age of at least `windowSeconds + 1` full seconds,
      so an event stamped at `now`, or after it on a clock set back, stays. */
  function IsExpired(event: ValidationEvent, now: int, windowSeconds: int): (expired: bool)
    ensures windowSeconds >= 0 ==>
      (expired <==> now - event.timestamp >= (windowSeconds + 1) * NanosPerSecond)
  {
    WholeSecondsAtMost(event.timestamp, now, if windowSeconds >= 0 then windowSeconds else 0);
    SecondsBetween(event.timestamp, now) > windowSeconds
  }

  /** The events the eviction keeps, in their original order. */
  function Retained(events: seq<ValidationEvent>, now: int, windowSeconds: int): (kept: seq<ValidationEvent>)
    ensures |kept| <= |events|
  {
    if events == [] then []
    else
      var last := events[|events| - 1];
      Retained(events[..|events| - 1], now, windowSeconds) + (if IsExpired(last, now, windowSeconds) then [] else [last])
  }

  /** An event survives eviction exactly when it has not expired. */
  lemma {:induction false} RetainedMembers(events: seq<ValidationEvent>, now: int, windowSeconds: int)
    ensures forall e :: e in Retained(events, now, windowSeconds) <==> e in events && !IsExpired(e, now, windowSeconds)
  {
    if events != [] {
      var init := events[..|events| - 1];
      RetainedMembers(init, now, windowSeconds);
      assert events == init + [events[|events| - 1]];
    }
  }

  /** Eviction keeps relative order: evicting a concatenation evicts each
      part on its own. */
  lemma {:induction false} RetainedConcat(front: seq<ValidationEvent>, back: seq<ValidationEvent>, now: int, windowSeconds: int)
    ensures Retained(front + back, now, windowSeconds) == Retained(front, now, windowSeconds) + Retained(back, now, windowSeconds)
    decreases |back|
  {
    if back != [] {
      var init := back[..|back| - 1];
      assert (front + back)[..|front + back| - 1] == front + init;
      RetainedConcat(front, init, now, windowSeconds);
    } else {
      assert front + back == front;
    }
  }

  /** Eviction removes nothing from a window without expired events. */
  lemma {:induction false} RetainedAllFresh(events: seq<ValidationEvent>, now: int, windowSeconds: int)
    requires forall i :: 0 <= i < |events| ==> !IsExpired(events[i], now, windowSeconds)
    ensures Retained(events, now, windowSeconds) == events
  {
    if events != [] {
      var init := events[..|events| - 1];
      assert forall i :: 0 <= i < |init| ==> init[i] == events[i];
      RetainedAllFresh(init, now, windowSeconds);
      assert events == init + [events[|events| - 1]];
    }
  }

  /** Eviction empties the window exactly when every event has expired. */
  lemma {:induction false} RetainedEmpty(events: seq<ValidationEvent>, now: int, windowSeconds: int)
    ensures Retained(events, now, windowSeconds) == []
        <==> forall i :: 0 <= i < |events| ==> IsExpired(events[i], now, windowSeconds)
  {
    if events != [] {
      var init := events[..|events| - 1];
      assert forall i :: 0 <= i < |init| ==> init[i] == events[i];
      RetainedEmpty(init, now, windowSeconds);
    }
  }

  class DynamicLogLevel {
    var validationEvents: seq<ValidationEvent>
    const validationWindowInSeconds: Int32
    const loggingSystem: LoggingSystem
    const errorThreshold: Int32
    const warnThreshold: Int32
    const infoThreshold: Int32
    const startingLogLevel: LogLevel
    /** The level-change records passed to the logger so far. */
    ghost var transitions: seq<Transition>

    /** The level the controller settles on for a given window: the
        starting level for an empty one, otherwise a level picked by the
        success rate, which is never TRACE, FATAL or OFF. */
    function LevelFor(events: seq<ValidationEvent>): (level: LogLevel)
      ensures events == [] ==> level == startingLogLevel
      ensures events != [] ==> level in {ERROR, WARN, INFO, DEBUG}
      ensures events != [] && AllSucceeded(events) && errorThreshold < 100 ==> level == ERROR
    {
      if events == [] then startingLogLevel
      else DetermineLogLevel(SuccessRate(events), errorThreshold, warnThreshold, infoThreshold)
    }

    /** The ROOT level agrees with the current window. */
    ghost predicate Settled()
      reads this, loggingSystem
    {
      loggingSystem.rootLevel == LevelFor(validationEvents)
    }

    /** Reading the configuration is left out: the parsed values arrive as
        parameters. The ROOT level is set to the starting level at once. */
    constructor (loggingSystem: LoggingSystem, validationWindowInSeconds: Int32,
                 errorThreshold: Int32, warnThreshold: Int32, infoThreshold: Int32,
                 startingLogLevel: LogLevel)
      modifies loggingSystem
      ensures this.loggingSystem == loggingSystem
      ensures this.validationWindowInSeconds == validationWindowInSeconds
      ensures this.errorThreshold == errorThreshold && this.warnThreshold == warnThreshold
      ensures this.infoThreshold == infoThreshold && this.startingLogLevel == startingLogLevel
      ensures validationEvents == [] && transitions == []
      ensures loggingSystem.rootLevel == startingLogLevel
      ensures loggingSystem.rootWrites == old(loggingSystem.rootWrites) + 1
      ensures Settled()
    {
      this.loggingSystem := loggingSystem;
      validationEvents := [];
      this.validationWindowInSeconds := validationWindowInSeconds;
      this.errorThreshold := errorThreshold;
      this.warnThreshold := warnThreshold;
      this.infoThreshold := infoThreshold;
      this.startingLogLevel := startingLogLevel;
      transitions := [];
      new;
      loggingSystem.SetRootLevel(startingLogLevel);
    }

    /** Records one outcome at clock reading `now` and revalidates. */
    method AddValidationEvent(isSuccess: bool, now: int)
      modifies this, loggingSystem
      ensures validationEvents == old(validationEvents) + [ValidationEvent(isSuccess, now)]
      ensures Settled()
      ensures old(loggingSystem.rootLevel) == LevelFor(validationEvents) ==>
        loggingSystem.rootWrites == old(loggingSystem.rootWrites) && transitions == old(transitions)
      ensures old(loggingSystem.rootLevel) != LevelFor(validationEvents) ==>
        && loggingSystem.rootWrites == old(loggingSystem.rootWrites) + 1
        && transitions == old(transitions) +
             [Transition(old(loggingSystem.rootLevel), LevelFor(validationEvents), SuccessRate(validationEvents))]
    {
      validationEvents := validationEvents + [ValidationEvent(isSuccess, now)];
      ValidateLogLevel();
    }

    /** Brings the ROOT level in line with the window. An empty window
        writes the starting level unconditionally; otherwise the level is
        written, and one change record made, only when it changes. */
    method ValidateLogLevel()
      modifies loggingSystem, this`transitions
      ensures Settled()
      ensures validationEvents == [] ==>
        loggingSystem.rootWrites == old(loggingSystem.rootWrites) + 1 && transitions == old(transitions)
      ensures validationEvents != [] && old(loggingSystem.rootLevel) == LevelFor(validationEvents) ==>
        loggingSystem.rootWrites == old(loggingSystem.rootWrites) && transitions == old(transitions)
      ensures validationEvents != [] && old(loggingSystem.rootLevel) != LevelFor(validationEvents) ==>
        && loggingSystem.rootWrites == old(loggingSystem.rootWrites) + 1
        && transitions == old(transitions) +
             [Transition(old(loggingSystem.rootLevel), LevelFor(validationEvents), SuccessRate(validationEvents))]
      // Revalidating a settled, non-empty window writes nothing.
      ensures old(Settled()) && validationEvents != [] ==>
        loggingSystem.rootWrites == old(loggingSystem.rootWrites) && transitions == old(transitions)
    {
      var totalEvents := |validationEvents|;
      if totalEvents == 0 {
        loggingSystem.SetRootLevel(startingLogLevel);
        return;
      }
      var successCount := SuccessCount(validationEvents);
      var successRate := successCount as real / totalEvents as real * 100.0;
      var newLogLevel := DetermineLogLevel(successRate, errorThreshold, warnThreshold, infoThreshold);
      var currentLogLevel := loggingSystem.rootLevel;
      if currentLogLevel != newLogLevel {
        transitions := transitions + [Transition(currentLogLevel, newLogLevel, successRate)];
        loggingSystem.SetRootLevel(newLogLevel);
      }
    }

    /** The scheduled task: drops every event older than the window, keeping
        the rest in order, then revalidates. */
    method RemoveOldValidationEvents(now: int)
      modifies this, loggingSystem
      ensures validationEvents == Retained(old(validationEvents), now, validationWindowInSeconds)
      ensures Settled()
      ensures validationEvents == [] ==>
        && loggingSystem.rootLevel == startingLogLevel
        && loggingSystem.rootWrites == old(loggingSystem.rootWrites) + 1
        && transitions == old(transitions)
      ensures validationEvents != [] && old(loggingSystem.rootLevel) == LevelFor(validationEvents) ==>
        loggingSystem.rootWrites == old(loggingSystem.rootWrites) && transitions == old(transitions)
      ensures validationEvents != [] && old(loggingSystem.rootLevel) != LevelFor(validationEvents) ==>
        && loggingSystem.rootWrites == old(loggingSystem.rootWrites) + 1
        && transitions == old(transitions) +
             [Transition(old(loggingSystem.rootLevel), LevelFor(validationEvents), SuccessRate(validationEvents))]
    {
      var kept: seq<ValidationEvent> := [];
      var i := 0;
      while i < |validationEvents|
        invariant 0 <= i <= |validationEvents|
        invariant kept == Retained(validationEvents[..i], now, validationWindowInSeconds)
      {
        var event := validationEvents[i];
        assert validationEvents[..i + 1][..i] == validationEvents[..i];
        if !IsExpired(event, now, validationWindowInSeconds) {
          kept := kept + [event];
        }
        i := i + 1;
      }
      assert validationEvents[..i] == validationEvents;
      validationEvents := kept;
      ValidateLogLevel();
    }
  }
}
