# Verified model of the rideshare simulation platform

The project models the protocols and algorithms of the platform whose correctness is not obvious
from one body, and proves what they promise.

- **Recurrences and calendars** (`Gregorian`, `RelativeDeltas`, `Easter`, `Reachability`, `SubDaily`,
  `SubDailyRules`, `CalendarAdvance`, `SubDailyIterations`, `RuleFields`, `RuleLine`, `RuleSets`,
  `IterCaches`, `Queries`): the date code in the rds-reset Lambda. Differences of moments in months and
  spans and their inverse; the Easter formulas against the calendar; the gcd criterion and the bounded
  searches of the HOURLY, MINUTELY and SECONDLY advances; the rollover of days, and the whole loop that
  the two make together; the RRULE line (section 3.3.10 of RFC 5545) printed and parsed back; the merge
  of recurrence sets over heaps; the shared iteration cache; the queries.
- **The deploy session** (`Sessions`, `SessionEnds`): session record, teardown schedule and clock, with
  every handler as one step and GitHub's answers as arbitrary inputs; how long a session can live.
- **Bronze ingestion** (`Ingestion`): polls, routing, flushes, commits, failures, crashes and restarts
  over a log without end.
- **The performance controller** (`Controllers`), **the metrics collector** (`StreamMetrics`), **event
  deduplication** (`Deduplications`) and **polygon areas** (`Polygons`).

What changes state in the platform is a class or a method with loops, proved against a function of
the state; the properties over runs are lemmas about that function. `Wrappers`, `Division`, `Reals`,
`Filtering`, `Sorting` and `Text` hold what several modules share.

Where the code and what is written about it differ, the model follows the code:

- The docstring of `handle_ensure_session` calls the third case idempotent; the code gives the session
  a new deadline (services/auth-deploy/handler.py:1881-1899).
- A deploy reported complete before any deadline was set leaves a session that no poll clears, and
  whose status request raises on the missing deadline (`SessionEnds.ImmortalSessionIsReachable`). The
  bound on a session's life (`SessionEnds.SessionDies`) fails for exactly these sessions and for one
  without a deadline whose deploy is found running when polled.
- Anyone may call the teardown handler (services/auth-deploy/handler.py:96-108), and each call starts the
  15 minutes of a teardown again: `SessionEnds.DirectCallsKeepSession` keeps a session for as long as the
  calls go on, and `SessionEnds.DirectCallPutsOff` is a run with one. The bound therefore counts from the
  last such call, and assumes a scheduler that delivers within some latency.
- A failed dead-letter write is swallowed and the offsets are committed: `Ingestion.SwallowedWriteLoses`
  is a run in which an invalid message ends up in no table, and `Ingestion.DeadLetterExactlyWhenLanded`
  says when it is in one.
- `_iter_cached` keeps its lock at the end, which blocks an iterator in some interleaving exactly for
  generators of at least ten values (`IterCaches.BlockingIsPossible`).
- `__mod_distance` is documented to raise a ValueError when it finds no value; it returns None, and
  unpacking that raises a TypeError. `SubDailyRules.RuleDecidesTypeError` says when.
- `__str__` leaves a week start on Monday out, so a rule with it does not come back under another
  calendar default (`RuleLine.RoundTrip`).
- `relativedelta(dt1, dt2)` of a date and a datetime leads back to `dt1` only as a value of the other
  kind (`RelativeDeltas.RelativeDelta.Between`).
- Orthodox Easter is right from 1500 to 4999, a wider range than its documentation gives, and after
  that exactly for the offsets that its month and day formulas fit (`Easter.OrthodoxEaster`).
- `_snap_to_floor_power_of_two` returns a value above the speed for speeds below 0.5
  (`Controllers.SnapIsFloor`).
- The TTL deduplication marks an event before its handler runs, so a handler that fails is not given
  the event again within the TTL (`Deduplications.HandledOncePerLifetime`).

## Model

| member | source | states |
|---|---|---|
| `RelativeDeltas.RelativeDelta.Between` | services/rds-reset/dateutil/relativedelta.py:112-169 | For every pair of moments: adding the delta to `dt2` gives `dt1` back, the same value if and only if both are of one kind or `dt1` is a datetime that is not at midnight; its months are the count of largest magnitude toward `dt1` that does not overshoot; they differ by at most one from the calendar distance the code starts with, so the loop adjusts at most once; every field is in its carried range |
| `RelativeDeltas.RelativeDelta.FindMonths` | services/rds-reset/dateutil/relativedelta.py:145-164 | The distance and the adjustment loop end with the month count, at most one away from the distance, and with `dt2` moved by exactly that many months |
| `RelativeDeltas.RelativeDelta.SetMonths` | services/rds-reset/dateutil/relativedelta.py:272-280 | Years and months stand for the linear count, with the months strictly between -12 and 12 |
| `RelativeDeltas.RelativeDelta.Fix` | services/rds-reset/dateutil/relativedelta.py:231-262 | All fields become the normal form of what they were, and `_has_time` says whether a time field is left |
| `RelativeDeltas.RelativeDelta.Moved` | services/rds-reset/dateutil/relativedelta.py:151-164 | Adding the delta while it holds only months is the move by that many calendar months |
| `RelativeDeltas.Carry` | services/rds-reset/dateutil/relativedelta.py:252-256 | Signed carrying: quotient times base plus rest is the number, the rest is smaller than the base and has the number's sign |
| `RelativeDeltas.NormaliseKeepsMeaning` | services/rds-reset/dateutil/relativedelta.py:231-262 | `_fix` conserves the linear month sum and the duration in microseconds, for any fields, and leaves every field in range |
| `RelativeDeltas.NormaliseIsIdempotent` | services/rds-reset/dateutil/relativedelta.py:231-262 | A second `_fix` changes nothing |
| `RelativeDeltas.NormaliseOfSeconds` | services/rds-reset/dateutil/relativedelta.py:166-169 | A span given as seconds and microseconds keeps no time field exactly when it is whole days; so `_has_time` is right for dates |
| `RelativeDeltas.AddMonths` | services/rds-reset/dateutil/relativedelta.py:366-378 | Moving by months is addition on the linear month number, keeps the time of day, and leads to the last of the days that the target month has which is not above the day of the moment |
| `RelativeDeltas.PlusIsMonthsThenSpan` | services/rds-reset/dateutil/relativedelta.py:366-392 | `__add__` with its year, month and carry branches is one move by the linear month sum followed by the span, and a ValueError exactly when that sum leaves the years of a date |
| `RelativeDeltas.PlusMonthsAlone` | services/rds-reset/dateutil/relativedelta.py:366-378 | A delta of months alone leads to its month, there to the last day not above the day of the moment, and keeps the time of day |
| `RelativeDeltas.SpanIsAdded` | services/rds-reset/dateutil/relativedelta.py:387-392 | Adding the span overflows exactly when the sum lies outside the days of a date; otherwise the sum is the span later, for a date on that day |
| `RelativeDeltas.AddMonthsIsMonotone` | services/rds-reset/dateutil/relativedelta.py:153-164 | More months always lead to a later moment, in spite of clamping |
| `RelativeDeltas.MonthCount` | services/rds-reset/dateutil/relativedelta.py:145-164 | There is a month count for every pair of moments: the one of largest magnitude on the way that does not overshoot |
| `RelativeDeltas.MonthCountIsUnique` | services/rds-reset/dateutil/relativedelta.py:145-164 | There is only one such count |
| `RelativeDeltas.AtMostOneAdjustment` | services/rds-reset/dateutil/relativedelta.py:153-164 | The calendar distance, or one month nearer to zero if that overshoots, is that count |
| `RelativeDeltas.DeltaLeadsBack` | services/rds-reset/dateutil/relativedelta.py:364-392 | Any delta with the month count and the rest of the span leads from `dt2` to `dt1` |
| `Gregorian.MonthLength` | services/rds-reset/dateutil/rrule.py:1018-1029 | Month lengths are the differences of month ordinals, over year ends too: what one round of the rollover uses |
| `Gregorian.MonthLengths` | services/rds-reset/dateutil/rrule.py:1018 | Month lengths: 31 and 30 in turn, July and August both 31, February what is left of the year |
| `Gregorian.SaturdayIn2000` | services/rds-reset/dateutil/rrule.py:1018 | The ordinals and weekdays are anchored: 1 January 2000 is day 730120, a Saturday |
| `Gregorian.OrdinalIsInjective` | services/rds-reset/dateutil/relativedelta.py:123-125 | Two dates with one ordinal are the same date, so moving to an ordinal and back loses nothing |
| `Gregorian.FromOrdinal` | services/rds-reset/dateutil/relativedelta.py:123-125 | Every positive ordinal is the ordinal of a date |
| `Easter.WesternEaster` | services/rds-reset/dateutil/easter.py:65-89 | For every year: the formulas give a date from 22 March to 25 April that is a Sunday by the Gregorian ordinal, the first one after the moon of the formulas |
| `Easter.WesternIsMeeusJonesButcher` | services/rds-reset/dateutil/easter.py:65-89 | For every year the date is that of the computation of Meeus, Jones and Butcher, which counts the lunar corrections in another way and corrects the Sunday instead of the moon |
| `Easter.JulianMoon` | services/rds-reset/dateutil/easter.py:65-68 | The full moon of the first two methods is that of the 19-year table of the Julian calendar |
| `Easter.OrthodoxEaster` | services/rds-reset/dateutil/easter.py:65-89 | For every year a date can hold: the Julian Easter is the first Sunday of the Julian calendar after the full moon of the 19-year table; the Orthodox one is the same day in the Gregorian calendar if and only if the year is 1500 or later and its offset is one the month and day formulas are right for, which to 4999 it always is (documented: 1583 to 4099); it is no date for exactly one offset |
| `Easter.NoOrthodoxEaster` | services/rds-reset/dateutil/easter.py:86-89 | That offset occurs: the formulas give 31 June 5243 |
| `Easter.CorrectedByCases` | services/rds-reset/dateutil/easter.py:81 | The nested correction term says: day 29 never stands, and day 28 only in the first eleven years of the cycle |
| `Easter.FormulasCountDays` | services/rds-reset/dateutil/easter.py:86-89 | The month and day formulas count days from 28 March over the ends of the months for exactly the offsets named, and fail to give a date only for 31 May |
| `Reachability.ReachableByGcd` | services/rds-reset/dateutil/rrule.py:1068-1072 | A residue is reached from the start by some number of intervals if and only if the gcd divides its distance |
| `Reachability.ConstructByset` | services/rds-reset/dateutil/rrule.py:1062-1077 | Keeps, of the in-range values, exactly those that repeated intervals reach; fails exactly when the gcd divides no distance |
| `Reachability.ModDistance` | services/rds-reset/dateutil/rrule.py:1103-1109 | Returns the first hit of one or more intervals, with carry times base plus new value equal to old value plus that many intervals; falls through only if no number of intervals ever hits |
| `Reachability.ReachedWithinOneTurn` | services/rds-reset/dateutil/rrule.py:1095-1104 | A residue that is reached at all is reached within `base` steps, so the bounded loop is complete |
| `Reachability.HitExactlyWhenReachable` | services/rds-reset/dateutil/rrule.py:1103-1109 | From any value congruent to the start modulo the gcd, reduced or not, `__mod_distance` returns if and only if some member in range is reachable from the start |
| `SubDaily.AdvanceHourly` | services/rds-reset/dateutil/rrule.py:931-947 | Advances to the right next stop, off the day if the day was filtered out; a type error if and only if the hour set is given and no member in range is reachable; never the empty-rule error; the hour stays congruent modulo the gcd |
| `SubDaily.AdvanceMinutely` | services/rds-reset/dateutil/rrule.py:948-976 | Advances to the first allowed time of day within one orbit, off a filtered day; every stop passed over was not allowed or lies on that day; the minute stays congruent. A type error if and only if the minute set reaches no member in range, and otherwise the empty-rule error if and only if no later stop is allowed |
| `SubDaily.AdvanceSecondly` | services/rds-reset/dateutil/rrule.py:979-1013 | The same with seconds |
| `SubDaily.OneOrbitSuffices` | services/rds-reset/dateutil/rrule.py:954-955 | If one orbit of the interval modulo the day shows no allowed time, none ever comes: the loop bound is enough |
| `SubDaily.RunKeepsCongruence` | services/rds-reset/dateutil/rrule.py:931-1013 | Over every run of advances the lowest unit stays congruent to the start modulo the gcd of interval and base |
| `SubDaily.StartDecidesTypeError` | services/rds-reset/dateutil/rrule.py:931-1013 | Wherever a run has come to, the next advance ends in a type error if and only if the start reaches no member in range: the first advance does or none ever will |
| `SubDaily.BuiltSetIsReachable` | services/rds-reset/dateutil/rrule.py:1062-1077 | A set built by `__construct_byset` reaches a member in range exactly when it has one |
| `SubDaily.NextLow` | services/rds-reset/dateutil/rrule.py:956-962 | One advance of the lowest unit is the shortest hop into its set; it fails only if the set is never hit |
| `SubDaily.CarryMinutes` | services/rds-reset/dateutil/rrule.py:996-1002 | Carrying minutes into hours and days conserves the time in minutes and tells whether the day changed |
| `SubDailyRules.RuleDecidesTypeError` | services/rds-reset/dateutil/rrule.py:625-685 | For a rule as its constructor leaves it: an advance, anywhere in a run from its start, ends in a type error if and only if its list at the frequency's own level was given and nothing that `__construct_byset` kept of it is in range |
| `SubDailyRules.ModDistanceAlwaysReturns` | services/rds-reset/dateutil/rrule.py:1095-1109 | So with values in range `__mod_distance` always returns, and the empty-rule error is raised if and only if no later stop is allowed |
| `SubDailyRules.HourOutOfRange` | services/rds-reset/dateutil/rrule.py:1095-1109 | An HOURLY rule with hour 25 is built, and its first advance is a type error, whatever its start |
| `SubDailyIterations.Iterate` | services/rds-reset/dateutil/rrule.py:799-1030 | The whole loop for HOURLY, MINUTELY and SECONDLY rules, advances, day filters and rollover together: in order, it emits exactly the instants that lie whole intervals after the start, up to the last year, at allowed times on days that pass. It ends in an exception if and only if no time after the start is ever allowed, and in the type error if and only if the lowest unit of the start reaches no member in range |
| `SubDailyIterations.NextMoment` | services/rds-reset/dateutil/rrule.py:931-1030 | One round of the loop: advance and rollover lead over the calendar to the next allowed time, and skip nothing that is to be emitted; without a next moment nothing is left to emit |
| `SubDailyIterations.NextStopShifts` | services/rds-reset/dateutil/rrule.py:931-1030 | Which stop is next does not depend on how the days are numbered, so the rollover between advances changes nothing |
| `CalendarAdvance.FixDay` | services/rds-reset/dateutil/rrule.py:1017-1030 | The rollover ends with a valid date of the same ordinal as the overflowing one, or past the maximum year exactly when that ordinal is beyond the last date; without `fixday` the day stays as it is, real or not |
| `CalendarAdvance.AdvanceMonthly` | services/rds-reset/dateutil/rrule.py:908-919 | For any interval the MONTHLY advance adds it to the linear month number; it stops exactly when that passes December of the last year, and leaves the months of a year exactly when the sum falls below 1 |
| `CalendarAdvance.AdvanceDaily` | services/rds-reset/dateutil/rrule.py:928-930 | For any interval the DAILY advance with its rollover adds it to the ordinal; the result is a date unless the day falls below the first |
| `CalendarAdvance.AdvanceWeekly` | services/rds-reset/dateutil/rrule.py:921-927 | The WEEKLY advance goes to the week start of the week `interval` weeks on, which falls on `wkst` |
| `CalendarAdvance.WeekStart` | services/rds-reset/dateutil/rrule.py:922-925 | The start of a day's week is the last `wkst` on or before it |
| `Text.SplitJoin` | services/rds-reset/dateutil/rrule.py:1549-1550 | Splitting undoes joining when no part holds the separator |
| `Text.ReadPrintInt` | services/rds-reset/dateutil/rrule.py:715-734 | `int` reads back every integer printed by `str` and with an explicit sign |
| `Text.ReadsIntegers` | services/rds-reset/dateutil/rrule.py:1474-1478 | `int` reads exactly the digits with or without a sign |
| `Text.SplitOfUpper` | services/rds-reset/dateutil/rrule.py:1549-1552 | `upper` changes no separator |
| `Text.UpperOfLetters` | services/rds-reset/dateutil/rrule.py:1551-1552 | `upper` turns exactly the letters a to z into their capitals |
| `Sorting.SortedIsAscending` | services/rds-reset/dateutil/rrule.py:526-538 | `sorted`, with or without `set`, is in order and has the same elements |
| `Sorting.SortedIsPermutation` | services/rds-reset/dateutil/rrule.py:548 | Without `set`, every repetition is kept |
| `Sorting.SortedIsIdempotent` | services/rds-reset/dateutil/rrule.py:526-538 | Normalising a normalised list changes nothing |
| `RuleFields.RemakeRule` | services/rds-reset/dateutil/rrule.py:428-698 | Building a rule from what it prints gives the same normalised fields, defaulted parts included; only a Monday week start falls back to the calendar's default |
| `RuleFields.DaysAgain` | services/rds-reset/dateutil/rrule.py:504-624 | The day lists that are printed normalise as the ones given did, and none appears or disappears |
| `RuleFields.TimesAgain` | services/rds-reset/dateutil/rrule.py:626-685 | The same for hours, minutes and seconds, through `__construct_byset` |
| `RuleFields.WeekdaysAgain` | services/rds-reset/dateutil/rrule.py:594-623 | Splitting weekdays into plain and numbered ones, and joining them for printing, is stable under a second pass |
| `RuleFields.MonthDaysAgain` | services/rds-reset/dateutil/rrule.py:562-570 | The same for positive and negative month days |
| `RuleFields.DaysSplit` | services/rds-reset/dateutil/rrule.py:596-602 | A weekday keeps its ordinal if and only if it has one and the rule is MONTHLY or YEARLY; every other weekday stands alone |
| `RuleFields.DefaultsComeFromStart` | services/rds-reset/dateutil/rrule.py:504-517 | A rule without BY lists lets its start pass, and every part its frequency repeats over is fixed to the start |
| `RuleFields.TimesetExists` | services/rds-reset/dateutil/rrule.py:690-698 | The three nested loops succeed exactly when every listed hour, minute and second exists, or one of the lists is empty |
| `RuleFields.RuleHoldsArgs` | services/rds-reset/dateutil/rrule.py:428-698 | What a rule holds of its arguments, list by list: at its own level exactly the members that the start reaches, elsewhere exactly the given ones, each once and ascending, the Easter offsets with repetitions; a list that is not given is the start below the frequency and free above it; the start fills in the month, the month day or the weekday exactly in YEARLY, MONTHLY and WEEKLY rules that name no day; and what is remembered for printing |
| `RuleFields.RuleExists` | services/rds-reset/dateutil/rrule.py:428-698 | The constructor succeeds exactly when a frequency is given, every set position is one of the year, the list at the frequency's level has a member that the start reaches, and below HOURLY every listed time exists or a list is empty |
| `RuleFields.Rrule.Init` | services/rds-reset/dateutil/rrule.py:447-698 | The constructor's assignments end in a rule that holds its arguments so, or in the specified error |
| `RuleFields.Rrule.SetDays` | services/rds-reset/dateutil/rrule.py:504-624 | The day fields hold the given lists, with the start standing in exactly in rules that name no day |
| `RuleFields.Rrule.SetWeekdays` | services/rds-reset/dateutil/rrule.py:594-619 | The loop over the weekdays, and when each of the two fields is None |
| `RuleFields.Rrule.SetTimes` | services/rds-reset/dateutil/rrule.py:626-698 | The time fields hold the given lists or the start, as said above, or the constructor raises the ValueError |
| `RuleFields.Rrule.MakeTimeField` | services/rds-reset/dateutil/rrule.py:626-685 | One time field holds exactly the given values, at the frequency's own level those that the start reaches; an empty result there is the ValueError |
| `RuleFields.SplitBySignIsMonthDays` | services/rds-reset/dateutil/rrule.py:562-565 | What is stored of the month days is the one pair of strictly ascending lists that hold between them exactly the given days other than 0, each by its sign |
| `RuleFields.Rrule.SetMonthdays` | services/rds-reset/dateutil/rrule.py:555-565 | The two stored lists are strictly ascending; the one holds exactly the positive given days and the other exactly the negative ones |
| `RuleFields.SortedTuple` | services/rds-reset/dateutil/rrule.py:642 | `tuple(sorted(s))` of a set has its members in order |
| `RuleFields.SetposInRange` | services/rds-reset/dateutil/rrule.py:487-499 | The loop over `bysetpos` fails exactly when a position is 0 or beyond 366 |
| `RuleLine.RoundTrip` | services/rds-reset/dateutil/rrule.py:700-760 | For non-empty BY lists: the printed line parses, and the rule built from it with the same start has identical fields, if and only if the week start is printed or is the default |
| `RuleLine.ParsePrintedLine` | services/rds-reset/dateutil/rrule.py:1537-1561 | The parser reads from a printed line exactly the arguments that the line names, in every part |
| `RuleLine.ReadPrintDay` | services/rds-reset/dateutil/rrule.py:1513-1533 | A weekday with or without its signed ordinal reads back from BYDAY as itself |
| `RuleLine.ParseOfParts` | services/rds-reset/dateutil/rrule.py:1549-1556 | A line of well-formed parts is handled part by part, undisturbed by splitting and upper-casing |
| `RuleLine.Str` | services/rds-reset/dateutil/rrule.py:713-760 | `__str__`, part by part and with its loop over the ten lists, prints the specified line |
| `RuleLine.ParseRfcRrule` | services/rds-reset/dateutil/rrule.py:1542-1560 | For every line without an UNTIL part the parsing loop reads the specified arguments, or fails where the specification does |
| `RuleLine.ReadLineNamesNoUntil` | services/rds-reset/dateutil/rrule.py:1549-1560 | Every line that the specification reads is such a line |
| `RuleLine.CallHandler` | services/rds-reset/dateutil/rrule.py:1553-1560 | The handler found by name does to the arguments what is specified, a failure being a ValueError |
| `RuleLine.PairsExactlyParts` | services/rds-reset/dateutil/rrule.py:1549-1560 | A line is read exactly when each of its parts is one known name and one value of its kind; otherwise it is a ValueError |
| `RuleLine.PartsCommute` | services/rds-reset/dateutil/rrule.py:1549-1556 | Parts with different names may change places, and of two with one name the later counts |
| `RuleLine.LineWithoutName` | services/rds-reset/dateutil/rrule.py:1542-1547 | A line reads the same with and without its name |
| `RuleLine.OtherLinesFail` | services/rds-reset/dateutil/rrule.py:1542-1545 | Any other name, or a second colon, is a ValueError |
| `RuleLine.CaseIsIgnored` | services/rds-reset/dateutil/rrule.py:1551-1552 | Names and values may be written in either case |
| `RuleLine.OtherDays` | services/rds-reset/dateutil/rrule.py:1518-1535 | The form with the ordinal in parentheses reads as the same weekday; an empty entry and the ordinal 0 are errors |
| `RuleLine.NamesOfCodes` | services/rds-reset/dateutil/rrule.py:1463-1472 | The codes behind the names of frequencies and weekdays |
| `RuleLine.NamesOfParts` | services/rds-reset/dateutil/rrule.py:1480-1535 | The names of parts that have a handler, BYWEEKDAY being another name of BYDAY |
| `RuleLine.KeysOfNames` | services/rds-reset/dateutil/rrule.py:1480-1535 | The arguments that the names of single values and of BYDAY set |
| `RuleLine.KeysOfListNames` | services/rds-reset/dateutil/rrule.py:1480-1492 | The arguments that the names of lists set |
| `RuleLine.HandleByWeekday` | services/rds-reset/dateutil/rrule.py:1513-1533 | The loop over the entries reads the specified weekdays |
| `RuleLine.ReadWday` | services/rds-reset/dateutil/rrule.py:1515-1532 | The scan for sign and digits, which never takes the last character, reads the specified weekday |
| `RuleSets.RuleSet.Iter` | services/rds-reset/dateutil/rrule.py:1383-1413 | For ascending streams: yields, strictly ascending and without repetitions, exactly the union of the includes minus the union of the excludes, terminates, and records the number of values as `_len` |
| `RuleSets.RuleSet.IterUntil` | services/rds-reset/dateutil/rrule.py:1383-1413 | Run as far as a date, it has yielded exactly the included and not excluded values up to that date |
| `RuleSets.UpToDateIsDetermined` | services/rds-reset/dateutil/rrule.py:1383-1413 | So two sets that agree up to a date have yielded the same when they reach it, whatever the order of their streams and whatever these give later |
| `RuleSets.ContinuedNamesTheSame` | services/rds-reset/dateutil/rrule.py:1383-1413 | What streams give after a date, however far they go on, does not change what they name up to it |
| `RuleSets.UpToDateIsPrefix` | services/rds-reset/dateutil/rrule.py:1383-1413 | And that is what the whole iteration begins with |
| `RuleSets.RuleSet.BuildHeaps` | services/rds-reset/dateutil/rrule.py:1384-1397 | The dates are sorted in place, and the two heaps hold exactly the included and the excluded values |
| `RuleSets.Merge` | services/rds-reset/dateutil/rrule.py:1398-1413 | The loop over two heaps, until a date or to its end, yields the values included and not excluded up to there, in order, and counts them |
| `RuleSets.Consider` | services/rds-reset/dateutil/rrule.py:1400-1409 | One new date: the exclusions below it go, and it is yielded unless it is excluded itself |
| `RuleSets.SkipBelow` | services/rds-reset/dateutil/rrule.py:1401-1405 | The inner loop takes exactly the exclusions below the date off their heap |
| `RuleSets.RootDecides` | services/rds-reset/dateutil/rrule.py:1406 | Then comparing with the root alone decides whether the date is excluded |
| `RuleSets.AdvanceRoot` | services/rds-reset/dateutil/rrule.py:1325-1330 | Advancing the root drops one value, or the exhausted stream, and nothing else, and restores the heap; the work left shrinks |
| `RuleSets.StepRoot` | services/rds-reset/dateutil/rrule.py:1410-1412 | `heapreplace` after an advance restores the heap of the same items |
| `RuleSets.BuildHeap` | services/rds-reset/dateutil/rrule.py:1384-1397 | The heap built from the sorted dates and the rules holds exactly their values |
| `RuleSets.AddStream` | services/rds-reset/dateutil/rrule.py:1316-1323 | A stream joins the heap if and only if it has a value |
| `RuleSets.RootIsLeast` | services/rds-reset/dateutil/rrule.py:1399 | The root of a heap is least |
| `RuleSets.SiftDown` | services/rds-reset/dateutil/rrule.py:1405 | Sinking an item restores the order of a heap and permutes its items |
| `RuleSets.Heapify` | services/rds-reset/dateutil/rrule.py:1396-1397 | `heapify` orders the list and permutes it |
| `RuleSets.HeapPop` | services/rds-reset/dateutil/rrule.py:1330 | `heappop` takes the root and nothing else |
| `IterCaches.AnyInterleaving` | services/rds-reset/dateutil/rrule.py:105-147 | Under any interleaving of iterators over one rule, the values of each are the first so many of the uncached generator, and one that has ended has given all |
| `IterCaches.LoneIteratorYieldsAll` | services/rds-reset/dateutil/rrule.py:124-147 | A lone iterator gives one value a step until the generator ends, and then ends |
| `IterCaches.LeaderYieldsAll` | services/rds-reset/dateutil/rrule.py:124-147 | So does, among several, any that meets the end first |
| `IterCaches.SecondIteratorBlocks` | services/rds-reset/dateutil/rrule.py:131-141 | The lock kept at the end: for any generator of at least ten values, the second of two iterators to reach the end waits for ever |
| `IterCaches.BlockingIsPossible` | services/rds-reset/dateutil/rrule.py:131-141 | Some interleaving leaves an iterator waiting for ever if and only if the generator ends and has at least ten values |
| `IterCaches.BlocksExactlyWhen` | services/rds-reset/dateutil/rrule.py:131-134 | An iterator gets stuck if and only if it still holds the generator, has taken every value, and another met the end before |
| `IterCaches.NextIsRight` | services/rds-reset/dateutil/rrule.py:130-147 | One step yields the next value of the generator and keeps cache, lock and all other iterators in order |
| `IterCaches.CachedRule.Fill` | services/rds-reset/dateutil/rrule.py:136-142 | The ten-value loop is the refill |
| `IterCaches.CachedRule.Advance` | services/rds-reset/dateutil/rrule.py:130-147 | `next` on an iterator, as the code's two loops run it, is that step; what it yields is the value after those already taken |
| `Queries.Contains` | services/rds-reset/dateutil/rrule.py:171-180 | With the early exit: membership |
| `Queries.Before` | services/rds-reset/dateutil/rrule.py:191-210 | The maximum of the dates before the bound, or None exactly when there is none |
| `Queries.After` | services/rds-reset/dateutil/rrule.py:212-228 | The minimum of the dates after the bound, or None exactly when there is none |
| `Queries.WithinIsTheRange` | services/rds-reset/dateutil/rrule.py:271-302 | The specified list is strictly ascending and holds exactly the dates of the recurrence after the lower and before the upper bound |
| `Queries.Between` | services/rds-reset/dateutil/rrule.py:271-302 | The search returns that list, although the lower bound is dropped after the first hit |
| `Sessions.StepKeepsInv` | services/auth-deploy/handler.py:904-1013 | One step of any handler, of time or of the scheduler keeps: a deadline and a schedule that both exist are the same instant; a live session with a deadline has its teardown scheduled or just fired; no deadline is more than two hours ahead |
| `Sessions.ReachableStatesAgree` | services/auth-deploy/handler.py:904-1013 | So does every sequence of steps |
| `Sessions.EveryRunFromNothing` | services/auth-deploy/handler.py:904-1013 | In particular every run from the empty stores |
| `Sessions.ShrinkStaysAhead` | services/auth-deploy/handler.py:1998-2007 | Shrinking takes one step off or nothing, and never moves the deadline into the past |
| `Sessions.ExtendAllOrNothing` | services/auth-deploy/handler.py:1961-1971 | An extension moves deadline and schedule later by all the minutes asked for or, exactly when more than two hours would remain, changes nothing |
| `Sessions.ShrinkUndoesExtend` | services/auth-deploy/handler.py:1998-2008 | Shrinking after an extension by the default step restores both stores |
| `Sessions.ExtendUndoesShrink` | services/auth-deploy/handler.py:1961-1971 | Extending after a shrink is always allowed and restores both stores |
| `Sessions.VisitorGuarantee` | services/auth-deploy/handler.py:2719-2733 | A new visitor never moves the deadline earlier, and leaves a live session at least 15 minutes |
| `Sessions.ScanByIndices` | services/auth-deploy/handler.py:1462-1486 | The search of the deploy runs finds a failure, or a run still going, exactly when the first run that is dated, not older than a minute before the session, and failed or running, is of that kind; everything before it can not be dated or is neither |
| `Sessions.StatusOfDeploying` | services/auth-deploy/handler.py:1437-1499 | A poll clears a deploying session exactly when that run has failed, or after an hour if it is not a running one; otherwise it changes nothing |
| `Sessions.StatusOfOthers` | services/auth-deploy/handler.py:1403-1435 | A poll clears a session that is torn down exactly after 15 minutes, or when the teardown is over; a poll of a session that is up changes nothing |
| `Sessions.SessionKeepsIds` | services/auth-deploy/handler.py:904-1013 | The start, the run ids and the completion of a session change only by their own events |
| `Sessions.DeliveryTakesOne` | services/auth-deploy/handler.py:2022-2091 | A delivered teardown call is no longer on its way, and no other is taken |
| `SessionEnds.SessionDies` | services/auth-deploy/handler.py:1403-1499 | For any state that satisfies the invariant and any run at all, in which the scheduler delivers within a given latency and nothing puts the end off beyond a floor (a deadline, a teardown call sent without the scheduler, a new deploy): a status poll later than the expiry clears session and schedule if and only if the session is neither immortal when polled nor without a deadline and teardown while its deploy is found running; what is cleared stays so until a deploy, an ensured session or a postponed teardown begins anew |
| `SessionEnds.ImmortalExactlyByCompletion` | services/auth-deploy/handler.py:2194-2203 | At the end of any run a session is immortal if and only if it was so at the start, or a deploy reported its end to it when it had no deadline and no teardown begun or to come, and neither an ensured deadline nor a teardown call followed |
| `SessionEnds.ExpiryNotPutOff` | services/auth-deploy/handler.py:1380-1521 | No step that stays within the floor puts the expiry off, whichever handler it is |
| `SessionEnds.LatePollClears` | services/auth-deploy/handler.py:1404-1499 | A status poll after the expiry clears session and schedule if and only if the session is not immortal, and not one without deadline and teardown whose deploy is found running |
| `SessionEnds.ExpiryOfSession` | services/auth-deploy/handler.py:1404-1407 | The expiry is the deadline plus 15 minutes, or without a deadline `deployed_at` plus 60 minutes |
| `SessionEnds.ImmortalStays` | services/auth-deploy/handler.py:1450-1521 | A session completed without a deadline and without a teardown to come survives every run in which it is neither ensured nor torn down |
| `SessionEnds.DirectCallEndsImmortality` | services/auth-deploy/handler.py:2025-2091 | After a direct teardown call, and with no new deploy or ensured session, a poll more than 15 minutes later than the floor clears it |
| `SessionEnds.DirectCallsKeepSession` | services/auth-deploy/handler.py:2048-2057 | Direct teardown calls 15 minutes apart keep a session through any number of polls: no bound holds without allowing for them |
| `SessionEnds.DirectCallPutsOff` | services/auth-deploy/handler.py:2048-2057 | Already one such call leaves a session 901 seconds after its deadline, polled while its teardown still runs |
| `SessionEnds.ImmortalSessionIsReachable` | services/auth-deploy/handler.py:2194-2203 | Such a session is reached by deploy and complete-deploy-workflow; from then on every status poll ends in an exception |
| `Sessions.AuthDeploy.HandleDeploy` | services/auth-deploy/handler.py:1292-1333 | One step; 409 exactly when a session exists |
| `Sessions.AuthDeploy.HandleEnsureSession` | services/auth-deploy/handler.py:1889-1945 | One step; afterwards deadline and schedule are both half an hour ahead |
| `Sessions.AuthDeploy.HandleExtendSession` | services/auth-deploy/handler.py:1952-1982 | One step; a success leaves schedule and deadline equal, a refusal changes nothing |
| `Sessions.AuthDeploy.HandleShrinkSession` | services/auth-deploy/handler.py:1989-2019 | One step; a refusal changes nothing |
| `Sessions.AuthDeploy.HandleProvisionVisitor` | services/auth-deploy/handler.py:2719-2736 | One step, taken only after the record and the email |
| `Sessions.AuthDeploy.HandleAutoTeardown` | services/auth-deploy/handler.py:2022-2091 | One step: reschedule by five minutes while a deploy runs, otherwise flag the session and drop the schedule; 500 exactly when the workflow is to be triggered and that raises |
| `Sessions.AuthDeploy.HandleCompleteTeardown` | services/auth-deploy/handler.py:2216-2227 | One step; deletes only a session that is being torn down |
| `Sessions.AuthDeploy.HandleCompleteDeploy` | services/auth-deploy/handler.py:2189-2203 | One step; 404 exactly when there is no session |
| `Sessions.AuthDeploy.HandleSessionStatus` | services/auth-deploy/handler.py:1380-1521 | One step for any answers of GitHub, with the reply, or the exception for a missing deadline |
| `Sessions.AuthDeploy.ScanDeployRuns` | services/auth-deploy/handler.py:1462-1486 | The loop over the runs gives the answer of the first one that decides |
| `Sessions.AuthDeploy.UpdateSessionDeadline` | services/auth-deploy/handler.py:983-996 | Writes the same instant to both stores |
| `Sessions.AuthDeploy.DeleteSession` | services/auth-deploy/handler.py:999-1013 | Clears both stores |
| `Ingestion.CommittedByChecks` | services/bronze-ingestion/src/main.py:34-134 | After any sequence of polls, flushes, writes failing before or after they land, crashes and restarts: every message below a committed offset that passes the checks that are on, or any without dead letters, is in its Bronze table; every other is in its dead-letter table under the first check it fails, or in a batch whose write raised |
| `Ingestion.CommittedIsStored` | services/bronze-ingestion/src/main.py:34-134 | The same by the routing that the service computes |
| `Ingestion.DeadLetterByChecks` | services/bronze-ingestion/src/consumer.py:89-121 | A message is routed away exactly when dead letters are on and it fails a check that is on, under the error of the first one: UTF-8, JSON if JSON or schema is checked, schema |
| `Ingestion.BronzeIsChecked` | services/bronze-ingestion/src/main.py:105-123 | In every run a Bronze row is a message of the log, in the table of its topic, and with dead letters on it passes every check |
| `Ingestion.LettersAreChecked` | services/bronze-ingestion/src/main.py:111-120 | In every run a dead letter, written or waiting, is a message that fails a check, under the error of the first one; a message that passes is never among them |
| `Ingestion.TurnByChecks` | services/bronze-ingestion/src/main.py:105-130 | A message that fails a check, with dead letters on, ends its turn; after any other there is a flush exactly when one is due |
| `Ingestion.FlushExactly` | services/bronze-ingestion/src/main.py:34-67 | A flush commits the positions exactly when no Bronze write raises and the commit takes effect, ends the process exactly when either raises, and loses its dead letters exactly when Bronze is written and a dead-letter write raises |
| `Ingestion.BronzeRaisesExactly` | services/bronze-ingestion/src/writer.py:44-78 | The Bronze writes raise exactly when a batch that is not empty meets a failing write or holds a message that cannot be decoded |
| `Ingestion.RowExactlyWhenLanded` | services/bronze-ingestion/src/main.py:42-51 | After the Bronze writes a row is in its table if and only if it was before, or its batch can be decoded, does not raise before it lands, and no batch before it raised |
| `Ingestion.TablesShared` | services/bronze-ingestion/src/dlq_writer.py:90-97 | Two topics share a dead-letter table exactly when they differ only in hyphens and underscores |
| `Ingestion.NothingIsLost` | services/bronze-ingestion/src/main.py:69-137 | The invariant behind it, over every run: below the committed offset stored, from there to the position buffered |
| `Ingestion.FlushKeepsNoLoss` | services/bronze-ingestion/src/main.py:34-67 | Each flush keeps it, wherever it fails |
| `Ingestion.FlushStores` | services/bronze-ingestion/src/main.py:42-63 | A flush whose Bronze writes succeed stores every buffered message |
| `Ingestion.DeadLetterExactlyWhenLanded` | services/bronze-ingestion/src/main.py:53-67 | Over every run: an invalid message below a committed offset is in its dead-letter table if and only if in some flush its topic's write landed; otherwise it was in a batch whose write raised |
| `Ingestion.RunLands` | services/bronze-ingestion/src/main.py:53-67 | For any record and any run: in its table if and only if it was there or some flush landed it |
| `Ingestion.RecordExactlyWhenLanded` | services/bronze-ingestion/src/dlq_writer.py:111-127 | Per flush: a record is in its table afterwards if and only if it was before, or its group's write did not raise before landing and no earlier group's raised |
| `Ingestion.StoredExactlyOnce` | services/bronze-ingestion/src/main.py:105-134 | A crash-free run without failing writes: table and memory together hold each valid message polled from a partition exactly once, by ascending offset, and the dead-letter side each invalid one |
| `Ingestion.CleanRunKeepsExact` | services/bronze-ingestion/src/main.py:105-134 | The invariant behind it, over every such run |
| `Ingestion.ShutdownCommits` | services/bronze-ingestion/src/main.py:132-134 | A clean shutdown commits the position of every partition |
| `Ingestion.ExpectedIsComplete` | services/bronze-ingestion/src/main.py:105-123 | The expected rows of a partition are its valid messages below the position, each once, in order |
| `Ingestion.ExpectedDlqIsComplete` | services/bronze-ingestion/src/main.py:105-123 | And the expected dead letters are the other messages, each once, in order, with its error |
| `Ingestion.RoutedIsDecodable` | services/bronze-ingestion/src/consumer.py:99-106 | With dead letters enabled, every message routed to the Bronze writer in any run can be decoded |
| `Ingestion.RaisesOnlyWithStorage` | services/bronze-ingestion/src/writer.py:44-78 | So `add_metadata` never raises, and a Bronze flush fails only if the storage does |
| `Ingestion.UndecodableBlocks` | services/bronze-ingestion/src/writer.py:50-54 | Without dead letters, the committed offset of a partition never passes a message that cannot be decoded |
| `Ingestion.OnlyDecodableWritten` | services/bronze-ingestion/src/writer.py:62-78 | A row enters a table only if its message can be decoded |
| `Ingestion.BronzeAppends` | services/bronze-ingestion/src/writer.py:62-78 | Writes that succeed append to each table exactly the batch of its topic |
| `Ingestion.DlqAppends` | services/bronze-ingestion/src/dlq_writer.py:111-127 | The same for dead letters, partition by partition, although two topics may share a table name |
| `Ingestion.GroupsKeepRecords` | services/bronze-ingestion/src/dlq_writer.py:113-115 | Grouping by topic keeps the records of each partition in order |
| `Ingestion.IngestionService.WriteRows` | services/bronze-ingestion/src/writer.py:62-78 | Writes all rows of a batch or, if one cannot be decoded, none |
| `Ingestion.IngestionService.WriteDeadLetters` | services/bronze-ingestion/src/dlq_writer.py:111-127 | The grouping and writing loops append group by group up to the first write that raises |
| `Ingestion.IngestionService.WriteBronze` | services/bronze-ingestion/src/main.py:42-51 | The topic loop writes batch by batch up to the first that raises |
| `Ingestion.IngestionService.ProcessBatch` | services/bronze-ingestion/src/main.py:34-67 | `_process_batch`: Bronze first, then dead letters with their exception swallowed, then one commit if anything was buffered |
| `Ingestion.IngestionService.FlushBatches` | services/bronze-ingestion/src/main.py:127-134 | The flush with the clearing of the batches, or the process lost |
| `Ingestion.IngestionService.Turn` | services/bronze-ingestion/src/main.py:105-130 | One turn of the run loop is one step of the protocol; an invalid message ends the turn before the flush is considered |
| `Ingestion.IngestionService.Stop` | services/bronze-ingestion/src/main.py:132-137 | The flush after the loop, and the next process from the committed offsets |
| `Polygons.PolygonArea` | scripts/fetch_geosampa_zones.py:102-112 | The index loop computes half the magnitude of the sum over the closed ring; never negative, zero for fewer than three vertices |
| `Polygons.AreaOfRotation` | scripts/fetch_geosampa_zones.py:102-112 | Starting at another vertex does not change the area |
| `Polygons.AreaOfReverse` | scripts/fetch_geosampa_zones.py:102-112 | Nor does walking the other way round |
| `Polygons.AreaOfShift` | scripts/fetch_geosampa_zones.py:102-112 | Nor does moving all points |
| `Polygons.AreaOfClosedRing` | scripts/fetch_geosampa_zones.py:102-112 | Nor does repeating the first vertex at the end |
| `Polygons.CutConservesArea` | scripts/fetch_geosampa_zones.py:106-111 | Cutting a ring along a diagonal conserves the signed area |
| `Polygons.AreaOfTriangle` | scripts/fetch_geosampa_zones.py:102-112 | A triangle has half the cross product of two of its sides |
| `Polygons.MultipolygonToPolygon` | scripts/fetch_geosampa_zones.py:115-137 | A polygon is returned as it is, other types are refused; of several polygons the first with the largest outer ring is chosen, and an empty list or a polygon without rings is an index error |
| `Polygons.FirstLargestIsUnique` | scripts/fetch_geosampa_zones.py:127-135 | There is only one such choice |
| `Controllers.CutsOutweighRamps` | services/performance-controller/src/controller.py:156-159 | With `k_down` > `k_up`, the factors for errors +e and -e multiply to less than 1 for every e other than 0 |
| `Controllers.GainBlends` | services/performance-controller/src/controller.py:157-158 | The gain lies strictly between the two settings, falls as the error grows, and the gains for opposite errors have a constant sum |
| `Controllers.PFactorFollowsError` | services/performance-controller/src/controller.py:156-159 | The factor is above 1 exactly for positive errors and below 1 exactly for negative ones |
| `Controllers.Decided` | services/performance-controller/src/controller.py:167-168 | Every decided speed is within the limits |
| `Controllers.DecisionFollowsError` | services/performance-controller/src/controller.py:139-168 | When error, integral and trend agree, the speed moves their way until it is clamped |
| `Controllers.DecisionFollowsHistory` | services/performance-controller/src/controller.py:141-168 | More accumulated error, or a lower previous error, never lowers the decided speed, and raises it if its gain is positive, short of the limits |
| `Controllers.RampThenCutLoses` | services/performance-controller/src/controller.py:243-262 | Two turns of the loop with the proportional term alone, a ramp and the accepted cut for the opposite error, never gain speed, and lose some if the ramp was stored, unless they end at the minimum |
| `Controllers.SnapIsFloor` | services/performance-controller/src/controller.py:25-33 | The result is the largest table value not above the speed if and only if the speed is at least 0.5; within the table's range it is within a factor of two |
| `Controllers.SnapOver` | services/performance-controller/src/controller.py:27-33 | The loop with its early exit, on any doubling table, returns that entry |
| `Controllers.SnapToFloorPowerOfTwo` | services/performance-controller/src/controller.py:25-33 | The same for the shipped table |
| `Controllers.SpeedChangesOnlyBy` | services/performance-controller/src/controller.py:76-102 | The stored speed changes only by an accepted actuation of a decided or snapped speed, or by seeding; after any change it equals the simulation's |
| `Controllers.EveryRun` | services/performance-controller/src/controller.py:243-262 | In every state of every run the integral is within its clamp and the stored speed is within the limits, in the table, or one the simulation was given from outside |
| `Controllers.AgreementLasts` | services/performance-controller/src/controller.py:243-262 | Once stored and simulated speed agree, they do so until another client interferes |
| `Controllers.PerformanceController.DecideSpeed` | services/performance-controller/src/controller.py:136-197 | The error times the step is added to the integral up to its limit, the trend is the change of the error per second, and the decided speed is returned |
| `Controllers.PerformanceController.Turn` | services/performance-controller/src/controller.py:243-262 | One turn of the loop is one step: a decided speed is stored exactly when it differs by more than 0.001 and is accepted; without an index nothing changes |
| `Controllers.PerformanceController.ChangeMode` | services/performance-controller/src/controller.py:76-102 | Switched on, the controller forgets its errors and takes over the live speed; switched off, it leaves the snapped speed; an unknown mode raises and changes nothing |
| `Controllers.PerformanceController.ResetPidState` | services/performance-controller/src/controller.py:62-66 | Integral, previous error and derivative are cleared |
| `StreamMetrics.DropIsFilter` | services/stream-processor/src/metrics.py:150-159 | Popping old entries from the front is filtering, if the entries are in time order |
| `StreamMetrics.WindowMoves` | services/stream-processor/src/metrics.py:148-159 | Popping from an earlier window with new entries appended gives the window of the whole history |
| `StreamMetrics.MetricsCollector.RecordConsume` | services/stream-processor/src/metrics.py:81-89 | With a non-decreasing clock, every deque stays the window of all that was ever recorded |
| `StreamMetrics.MetricsCollector.RecordPublish` | services/stream-processor/src/metrics.py:92-101 | The same, for publishes and their latencies |
| `StreamMetrics.MetricsCollector.RecordPublishError` | services/stream-processor/src/metrics.py:105-113 | The same, for errors |
| `StreamMetrics.MetricsCollector.Cleanup` | services/stream-processor/src/metrics.py:148-159 | The four loops bring every deque to the window |
| `StreamMetrics.MetricsCollector.RecordGpsAggregation` | services/stream-processor/src/metrics.py:116-122 | Both totals grow by what is recorded |
| `StreamMetrics.MetricsCollector.GetSnapshot` | services/stream-processor/src/metrics.py:174-227 | Totals are those of the whole history; each rate times the smaller of the elapsed time and the window is the number of recordings in the window; latencies describe the window; a zero window is the only division by zero |
| `StreamMetrics.ComputeLatencyStats` | services/stream-processor/src/metrics.py:161-172 | Count, mean and p95 of exactly the samples given |
| `StreamMetrics.PercentileIsThere` | services/stream-processor/src/metrics.py:169-170 | At most 95% of the samples are below the reported p95, and at least 95% at or below it |
| `Deduplications.DuplicateExactlyWhenRecent` | services/stream-processor/src/deduplication.py:30-48 | Over any timed sequence of calls: a call is answered as a duplicate if and only if it names an event accepted less than the TTL earlier |
| `Deduplications.AcceptancesAreApart` | services/stream-processor/src/deduplication.py:39-48 | Two acceptances of an event are at least the TTL apart |
| `Deduplications.CountersAddUp` | services/stream-processor/src/deduplication.py:42-48 | One counter is the number of acceptances, and the two add up to the calls with a non-empty id |
| `Deduplications.KeyIsLive` | services/stream-processor/src/deduplication.py:39-40 | A key lives exactly as long as the TTL of the last acceptance of its event |
| `Deduplications.EventDeduplicator.IsDuplicate` | services/stream-processor/src/deduplication.py:30-48 | A call is a duplicate exactly when it names an event whose key is there and has not expired; otherwise the key gets a new lifetime; no other key is touched |
| `Deduplications.HandledOncePerLifetime` | services/stream-processor/src/processor.py:293-321 | An event with an id reaches its handler at most once per TTL under any redelivery, whether or not the handler fails |
| `Deduplications.SkippedWasHandled` | services/stream-processor/src/processor.py:301-302 | A message that is skipped has one of the same event handled less than the TTL earlier |
| `Deduplications.StreamProcessor.ProcessMessage` | services/stream-processor/src/processor.py:286-307 | Malformed JSON and missing values pass on to the handler, other bad payloads raise, duplicates return before the handler; the counter counts handler calls |

## Left out

Contracts that promise less, or for fewer inputs, than the code:

- AdvanceHourly: intervals below 1 are not covered, which section 3.3.10 of RFC 5545 excludes and the code does not check; a filtered day then divides by an interval of 0
- AdvanceMinutely: the same
- AdvanceSecondly: the same
- Iterate: the same; the times that are emitted within an hour or a minute, `bysetpos`, COUNT and UNTIL are left out; the days pass by an arbitrary filter
- NextMoment: intervals below 1, as above
- ParseRfcRrule: nothing is promised for a line with an UNTIL part, whose text the date parser of dateutil reads, which is not part of this model
- SessionDies: a scheduler that never delivers is excluded; the deadline then passes without a teardown
- WesternEaster: a year before 1 or after 9999 is an error of `datetime.date`; the first is excluded, the second is not modelled
- Contains: the recurrence is a finite strictly ascending sequence, here and in the other queries
- RuleSet.Iter: the streams are finite sequences; what they give after a date does not matter for `IterUntil` that date
- RoundTrip: rules without UNTIL, built from non-empty BY lists, with the frequency and weekdays in range
- VisitorGuarantee: a session that is already past its deadline, or is being torn down, gets no guarantee
- RecordConsume: the clock must not step back between recordings, here and in the other methods of `MetricsCollector`
- DuplicateExactlyWhenRecent: calls in time order, starting from a store without keys of the deduplicator; a key expires at the end of its TTL
- CutsOutweighRamps: `exp` is any function that is positive, strictly increasing and takes sums to products

Parts of the modelled files that are not modelled:

- rrule: BYWEEKNO, BYYEARDAY and BYEASTER masks, `bysetpos` selection, day sets and the YEARLY advance of `_iter`; time zones; COUNT and UNTIL in `_iter` and DTSTART lines; `xafter`, indexing and slices; the `replace` method
- rrule constructor: a method, since it can raise; single values in place of lists, and the contents of the sorted `_timeset` beyond the check that its times exist
- `int()` on text with blanks or underscores, and characters outside ASCII
- heapq: `heapify`, `heappop` and `heapreplace` are modelled by an own sift-down with the same contract; the branch of `_genitem.__next__` for an item that is not the root is never taken, since only roots are advanced
- relativedelta: absolute fields, weekdays, leap days, and floats
- Sessions: failing AWS calls, races between handlers, and the API key check; `teardown-status` and `deploy-status` as far as they cache run ids are the two Set events
- Sessions: fields of replies other than the status code
- Ingestion: consumer group rebalances, a message without a topic, health reporting, and the text of error messages; when a flush is due is an arbitrary input
- Ingestion: the wording of a dead-letter record; it holds the message and the error type
- Polygons and the controller: floating-point rounding; arithmetic is over the reals
- The controller: exceptions other than HTTP errors in an actuation, overflow of `exp`, and the wait for Prometheus
- Metrics: locks and threads, health callbacks, and counters without a window
- Deduplication: an unreachable Redis, and other users of its keys; the processor after the handler is called
- Visitor provisioning, emails, the control panel, dashboards, orchestration, and the simulation itself: no part of this model
