# Dynamic log level — a verified model

This project models the decision core of a Spring Boot service that adapts
its ROOT log level to recent traffic:

- `DynamicLogLevel` keeps, in insertion order, the outcomes (`ValidationEvent`:
  success flag and clock reading) reported within a sliding window. After every
  change it computes the success percentage, maps it to ERROR, WARN, INFO or
  DEBUG through three integer thresholds with strict `>` comparisons, and writes
  the ROOT level only when the level changes. A periodic task evicts outcomes
  whose whole-second age exceeds the window, then revalidates. An empty window
  always writes the configured starting level.
- `DynamicRps` counts requests since its last reset. A read divides the count by
  the whole seconds elapsed (integer division). It returns 0 when no whole second
  has passed, and resets the count when more than 60 seconds have passed. Four
  adjusters place the current rate in one of three tiers. In the two busier tiers
  the validation window becomes a third or a half of itself but at least 10 s
  (which lengthens a window shorter than 10 s), and each threshold becomes
  `min(cap, threshold + step)` with caps 99, 97 and 95 (which lowers a threshold
  already above its cap). The window adjuster logs at the ROOT level's SLF4J
  counterpart, so it throws `IllegalArgumentException` in a busier tier while
  ROOT reads back as FATAL or OFF; the model returns that as an outcome. The
  model's ROOT register reads back exactly the level last written (see
  "Left out" for when a logging backend does otherwise).

Files and modules:

- `java_base.dfy` (`JavaBase`) — Java's `int`: 32-bit wrap-around, truncating
  `/`, and the two ways the source turns clock readings into whole seconds.
  `ChronoUnit.SECONDS.between` truncates toward zero. `Duration.getSeconds`
  floors. Clock readings are integer nanoseconds.
- `logging.dfy` (`Logging`) — Spring's `LogLevel` values, ordered by verbosity.
  Which of them SLF4J's `Level` can name. Also `LoggingSystem`, reduced to its
  ROOT-level register, which reads back the level last written, with a ghost
  count of writes.
- `log_level_control.dfy` (`LogLevelControl`) — `ValidationEvent` as a datatype,
  the success count and rate, `DetermineLogLevel`, the eviction filter
  `Retained`, and the `DynamicLogLevel` class. The class holds the window as a
  `seq` field and keeps a ghost list of the level-change records it passes to the logger.
- `request_rate.dfy` (`RequestRate`) — the pure tier rules, and the `DynamicRps`
  class with its counter and last-reset time. The adjuster methods read the rate
  and then apply the pure rules.

Inputs that the source reads from the environment become parameters:

- clock readings (`now`);
- parsed configuration values (window, thresholds, starting level, RPS
  boundaries).

The success rate is an exact `real`. `RateAboveThreshold` shows that comparing
it with a threshold is the same as the integer test
`100 * successes > threshold * total`.

`DynamicLogLevel.java` is older than the code that wires and tests it:
`DynamicLogLevelConfiguration.java` calls a three-argument constructor, and the
test calls `clearValidationEvents` and `updateSchedulerInterval`, none of which
the file defines. The model follows the file as written:

- at or below the info threshold the level is DEBUG unconditionally. No
  debug-enabled switch or failure count gates it.
- the default window is 30 seconds.
- the constructor takes no RPS estimator, so the controller uses its base
  thresholds and window.

The test expectations that assume the newer code (INFO for 0 % or 70 %
success, for example) do not hold for this file. `AllFailureSelectsDebugByDefault`
states what the file does instead.

## Model

| member | source | states |
|---|---|---|
| JavaBase.ToInt32 | src/main/java/br/com/cardoso/log/DynamicRps.java:46 | narrowing to `int` yields the value congruent modulo 2^32 in the `int` range, and leaves in-range values unchanged |
| JavaBase.Quot | src/main/java/br/com/cardoso/log/DynamicRps.java:48 | Java division truncates toward zero: the remainder has the dividend's sign and is smaller than the divisor in magnitude; the quotient is no larger than the dividend in magnitude |
| JavaBase.SecondsBetween | src/main/java/br/com/cardoso/log/DynamicLogLevel.java:102 | whole seconds between two readings truncate toward zero; on a forward clock that is floor division of the nanosecond difference |
| JavaBase.SecondsConversionsAgree | src/main/java/br/com/cardoso/log/DynamicRps.java:39 | on a forward clock the floor (`Duration.getSeconds`) and truncating (`ChronoUnit.SECONDS.between`) conversions agree and are non-negative; zero elapsed seconds means less than one second passed |
| JavaBase.DurationSeconds | src/main/java/br/com/cardoso/log/DynamicRps.java:39 | the seconds part of a `Duration` is the floor: `s` whole seconds are at most the nanosecond difference, `s + 1` exceed it |
| JavaBase.DurationAtLeast | src/main/java/br/com/cardoso/log/DynamicRps.java:39-43 | a `Duration` of at least `k` whole seconds is exactly a nanosecond difference of at least `k` seconds |
| JavaBase.WholeSecondsAtMost | src/main/java/br/com/cardoso/log/DynamicLogLevel.java:102 | for `limit` ≥ 0, an age of at most `limit` truncated whole seconds is exactly a nanosecond difference below `limit + 1` seconds, whichever way the clock moved |
| LogLevelControl.SuccessCount | src/main/java/br/com/cardoso/log/DynamicLogLevel.java:73 | the number of successes is at most the window size; it equals the size exactly when every event succeeded, and is zero exactly when every event failed |
| LogLevelControl.SuccessCountAdds | src/main/java/br/com/cardoso/log/DynamicLogLevel.java:73 | a single event counts 1 exactly when it succeeded, and the count of a concatenation is the sum of the parts' counts, so the count is the number of successful events |
| LogLevelControl.SuccessRate | src/main/java/br/com/cardoso/log/DynamicLogLevel.java:74 | the rate lies in [0, 100]; it is 100 exactly when all events succeeded and 0 exactly when all failed |
| LogLevelControl.RateAboveThreshold | src/main/java/br/com/cardoso/log/DynamicLogLevel.java:74 | the rate exceeds an integer threshold iff `100 * successes > threshold * total` |
| LogLevelControl.DetermineLogLevel | src/main/java/br/com/cardoso/log/DynamicLogLevel.java:87-97 | the result is one of ERROR, WARN, INFO, DEBUG; ERROR exactly when the rate exceeds the error threshold; DEBUG exactly when the rate is at or below all three thresholds |
| LogLevelControl.LevelTiers | src/main/java/br/com/cardoso/log/DynamicLogLevel.java:87-97 | with thresholds ordered error ≥ warn ≥ info, each level owns an interval: ERROR above error, WARN in (warn, error], INFO in (info, warn], DEBUG at or below info (both directions) |
| LogLevelControl.ThresholdsAreStrict | src/main/java/br/com/cardoso/log/DynamicLogLevel.java:88-94 | with thresholds ordered error ≥ warn ≥ info, a rate exactly equal to a threshold falls to a lower tier: never ERROR at the error threshold, neither ERROR nor WARN at the warn threshold, DEBUG at the info threshold |
| LogLevelControl.LevelIsMonotone | src/main/java/br/com/cardoso/log/DynamicLogLevel.java:87-97 | for any thresholds, raising the success rate never selects a more verbose level |
| LogLevelControl.AllSuccessSelectsError | src/main/java/br/com/cardoso/log/DynamicLogLevel.java:73-89 | a non-empty all-success window selects ERROR whenever the error threshold is below 100 |
| LogLevelControl.AllSuccessKeepsDefaultStartingLevel | src/main/java/br/com/cardoso/log/DynamicLogLevel.java:24-27 | with the default thresholds a non-empty all-success window selects ERROR, the default starting level |
| LogLevelControl.SeventyPercentSelectsDebugByDefault | src/main/java/br/com/cardoso/log/DynamicLogLevel.java:73-95 | 7 successes out of 10 give a rate of exactly 70, which the default thresholds map to DEBUG |
| LogLevelControl.AllFailureSelectsDebugByDefault | src/main/java/br/com/cardoso/log/DynamicLogLevel.java:87-97 | with the default thresholds 97/95/90 a non-empty all-failure window selects DEBUG |
| LogLevelControl.IsExpired | src/main/java/br/com/cardoso/log/DynamicLogLevel.java:102 | for a window of at least zero seconds an event is expired exactly when it is at least `window + 1` full seconds old, so an event stamped at `now` or later stays |
| LogLevelControl.DefaultWindowCutoff | src/main/java/br/com/cardoso/log/DynamicLogLevel.java:23 | with the default 30-second window an event is expired exactly when it is at least 31 seconds old |
| LogLevelControl.Retained | src/main/java/br/com/cardoso/log/DynamicLogLevel.java:101-107 | eviction never lengthens the window |
| LogLevelControl.RetainedMembers | src/main/java/br/com/cardoso/log/DynamicLogLevel.java:101-107 | an event is kept iff it was in the window and its whole-second age does not exceed the window length |
| LogLevelControl.RetainedConcat | src/main/java/br/com/cardoso/log/DynamicLogLevel.java:101-107 | eviction of a concatenation is the concatenation of the evictions, so kept events stay in their original order |
| LogLevelControl.RetainedAllFresh | src/main/java/br/com/cardoso/log/DynamicLogLevel.java:101-107 | eviction removes nothing from a window in which no event has expired |
| LogLevelControl.RetainedEmpty | src/main/java/br/com/cardoso/log/DynamicLogLevel.java:101-107 | eviction empties the window exactly when every event in it has expired |
| Logging.LoggingSystem.SetRootLevel | src/main/java/br/com/cardoso/log/DynamicLogLevel.java:83 | `setLogLevel("ROOT", level)` makes `level` the ROOT level and counts one write |
| LogLevelControl.DynamicLogLevel.LevelFor | src/main/java/br/com/cardoso/log/DynamicLogLevel.java:66-76 | an empty window gives the starting level; a non-empty one gives one of ERROR, WARN, INFO, DEBUG, and ERROR for an all-success window when the error threshold is below 100 |
| LogLevelControl.DynamicLogLevel.constructor | src/main/java/br/com/cardoso/log/DynamicLogLevel.java:40-50 | the window starts empty and the ROOT level is written once, with the starting level |
| LogLevelControl.DynamicLogLevel.AddValidationEvent | src/main/java/br/com/cardoso/log/DynamicLogLevel.java:61-64 | appends exactly one event with the given flag and time after the earlier ones. The ROOT level then matches the window. The level is written, and one record made, only if it changed |
| LogLevelControl.DynamicLogLevel.ValidateLogLevel | src/main/java/br/com/cardoso/log/DynamicLogLevel.java:66-85 | an empty window writes the starting level, unconditionally and without a record. Otherwise the ROOT level becomes the level determined by the rate, with one write and one record (old level, new level, rate) only on a change. Revalidating a settled, non-empty window writes nothing |
| LogLevelControl.DynamicLogLevel.RemoveOldValidationEvents | src/main/java/br/com/cardoso/log/DynamicLogLevel.java:99-109 | the window becomes exactly its non-expired events in order, and the level is revalidated; if all events were evicted the ROOT level is the starting level |
| RequestRate.TierOf | src/main/java/br/com/cardoso/log/DynamicRps.java:58-69 | the high tier is exactly rps > highRps; the base tier is exactly rps at or below both boundaries |
| RequestRate.TierBoundaries | src/main/java/br/com/cardoso/log/DynamicRps.java:58-63 | boundaries are strict: rps == highRps is the medium tier, rps == mediumRps the base tier, one above each boundary the next tier up |
| RequestRate.TierIsMonotone | src/main/java/br/com/cardoso/log/DynamicRps.java:58-63 | a higher rate is never in a lower tier |
| RequestRate.QuotientOfNaturals | src/main/java/br/com/cardoso/log/DynamicRps.java:48 | Java's `/` on a non-negative count and positive seconds is floor division, between 0 and the count |
| RequestRate.AverageRps | src/main/java/br/com/cardoso/log/DynamicRps.java:40-48 | zero elapsed seconds gives 0; for a non-negative count over positive elapsed seconds the result is the floor quotient, between 0 and the count |
| RequestRate.ResetsCounter | src/main/java/br/com/cardoso/log/DynamicRps.java:43 | a read resets the counter exactly when at least 61 full seconds have passed since the last reset, and such a read never sees zero elapsed seconds |
| RequestRate.AdjustedValidationWindow | src/main/java/br/com/cardoso/log/DynamicRps.java:55-70 | for a window of at least 0 it is `max(10, w / 3)` in the high tier and `max(10, w / 2)` in the medium tier; in either adjusted tier it is at least 10, no larger than a window of at least 10, and exactly 10 for a window below 10; in the base tier it is unchanged |
| RequestRate.Raise | src/main/java/br/com/cardoso/log/DynamicRps.java:75 | a raised threshold never exceeds its cap, is never below an original at or below the cap, equals original + step when that stays under the cap, and equals the cap for an original less than one step below the cap or above it (short of `int` overflow) |
| RequestRate.AdjustedErrorThreshold | src/main/java/br/com/cardoso/log/DynamicRps.java:72-80 | the high tier gives `min(99, t + 2)` and the medium tier `min(99, t + 1)` (short of `int` overflow on the sum), so a threshold within one step of 99 or above it becomes 99; in an adjusted tier the result is at most 99; it never lowers a threshold at or below 99; in the base tier it is unchanged |
| RequestRate.AdjustedWarnThreshold | src/main/java/br/com/cardoso/log/DynamicRps.java:82-90 | the high tier gives `min(97, t + 2)` and the medium tier `min(97, t + 1)` (short of `int` overflow on the sum), so a threshold within one step of 97 or above it becomes 97; in an adjusted tier the result is at most 97; it never lowers a threshold at or below 97; in the base tier it is unchanged |
| RequestRate.AdjustedInfoThreshold | src/main/java/br/com/cardoso/log/DynamicRps.java:92-100 | the high tier gives `min(95, t + 5)` and the medium tier `min(95, t + 3)` (short of `int` overflow on the sum), so a threshold within one step of 95 or above it becomes 95; in an adjusted tier the result is at most 95; it never lowers a threshold at or below 95; in the base tier it is unchanged |
| RequestRate.ThresholdsGrowWithRate | src/main/java/br/com/cardoso/log/DynamicRps.java:72-100 | for thresholds at or below their caps, a higher rate never yields a lower adjusted threshold |
| RequestRate.WindowShrinksWithRate | src/main/java/br/com/cardoso/log/DynamicRps.java:55-70 | for a window of at least 10 seconds, a higher rate never yields a longer adjusted window |
| RequestRate.DefaultTiers | src/main/java/br/com/cardoso/log/DynamicRps.java:20-21 | with the default boundaries 1000 and 500 the medium tier is exactly the rates 501 to 1000 |
| RequestRate.DynamicRps.constructor | src/main/java/br/com/cardoso/log/DynamicRps.java:29-35 | the counter starts at 0, the last reset is the construction time, and the logging system and boundaries are the given ones |
| RequestRate.DynamicRps.GetAverageRPS | src/main/java/br/com/cardoso/log/DynamicRps.java:37-49 | returns the average of the counter over the elapsed whole seconds. More than 60 s elapsed: counter set to 0 and last reset to `now`, so a second read at the same `now` returns 0. Otherwise the state is unchanged |
| RequestRate.DynamicRps.IncrementRequestCount | src/main/java/br/com/cardoso/log/DynamicRps.java:51-53 | the counter goes up by exactly one (wrapping at the `int` maximum); nothing else changes |
| RequestRate.DynamicRps.GetAdjustedValidationWindow | src/main/java/br/com/cardoso/log/DynamicRps.java:55-70 | reads the ROOT level, then the rate at `now`: throws `IllegalArgumentException` exactly when the rate is in an adjusted tier and ROOT is FATAL or OFF, otherwise returns the tier rule applied to that rate; either way it leaves the state that read leaves |
| RequestRate.DynamicRps.GetAdjustedErrorThreshold | src/main/java/br/com/cardoso/log/DynamicRps.java:72-80 | returns the error-threshold rule applied to the rate a read at `now` reports, and leaves the state that read leaves |
| RequestRate.DynamicRps.GetAdjustedWarnThreshold | src/main/java/br/com/cardoso/log/DynamicRps.java:82-90 | returns the warn-threshold rule applied to the rate a read at `now` reports, and leaves the state that read leaves |
| RequestRate.DynamicRps.GetAdjustedInfoThreshold | src/main/java/br/com/cardoso/log/DynamicRps.java:92-100 | returns the info-threshold rule applied to the rate a read at `now` reports, and leaves the state that read leaves |

## Left out

- Logging output: the level-change message, the eviction message and the RPS adjustment messages. They are diagnostics. The model keeps each level-change record passed to the logger as a ghost `Transition` (old level, new level, rate) and writes no text; whether the logger prints it depends on the ROOT level before the write, which is not modelled.
- Logging.LoggingSystem: the ROOT register reads back exactly the level last written. A real backend may store a level it lacks as a neighbouring one (Logback, for one, has no FATAL and reads it back as ERROR); under such a backend a FATAL starting level reads back as ERROR, so the first revalidation writes and records no FATAL→ERROR change, and only OFF, not FATAL, makes the window adjuster throw. The model does not capture that mapping.
- Scheduling: `startScheduler` and the executor that runs the eviction every window length, and `LogSchedule.java`, which only logs the RPS. Eviction is a method called with an explicit `now`.
- Concurrency: the window list is shared between request threads and the scheduler without synchronisation, and the counter is an `AtomicInteger`. Both are modelled as sequential state, so interleavings of append with eviction, or of two reads racing on the reset, are not covered.
- Floating point: the success rate is an exact rational, not a `double`. Rounding could differ from the exact value only when a rate lands exactly on a threshold.
- Clock and configuration parsing: `LocalDateTime.now()` becomes the `now` parameter. `Integer.parseInt` and `LogLevel.valueOf` on configuration become already-parsed constructor parameters; the parse failures they can throw are not modelled.
- `getLoggerConfiguration("ROOT")` returning `null` (a ROOT logger with no configured level) is not modelled, nor the `NullPointerException` the window adjuster would then raise in a busier tier; the controller's constructor always sets one.
- Overflow of `ChronoUnit.SECONDS.between` and `Duration.between` on extreme dates is not modelled (integers are unbounded there).
- The Spring glue is not part of this model: `DynamicLogLevelConfiguration.java` (bean wiring, calling a three-argument constructor that `DynamicLogLevel.java` does not define) and `TestController.java` (HTTP endpoint).
- Behaviour that this version of `DynamicLogLevel.java` does not contain: the debug-enabled gate, the active-error count, use of the RPS-adjusted thresholds by the controller, `clearValidationEvents` and `updateSchedulerInterval`.
