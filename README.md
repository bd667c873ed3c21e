# Repeat-event expansion, modelled in Dafny

The calendar application saves a repeating event as a list of concrete events.
`generateRepeatEvents` in `src/utils/repeatEvents.ts` builds that list from the
event the user filled in (the seed) and its repeat configuration
`{ type, interval, endDate }`:

- With no end date (`undefined`, `null` or `''`) it returns `undefined`.
- For `daily`, `weekly`, `monthly` and `yearly` it hands over to one of four
  generators. Each generator copies the seed's date into a mutable `Date`. While
  that date is on or before the end date, the generator pushes a copy of the
  seed carrying it, then steps the date with `setDate`, `setMonth` or
  `setFullYear`.
- For any other type, `'none'` included, the `switch` has no branch, so the
  result is `undefined`.

The only caller is the save path of `useEventOperations`
(`src/hooks/useEventOperations.ts:28-35`). It expands only new events whose
type is not `'none'`, and it treats `undefined` as a failed save.

The project has four files:

- `calendar.dfy` (module `Calendar`) holds proleptic-Gregorian dates and the day
  arithmetic JavaScript's `Date` performs on them, taken from section 21.4.1 of
  ECMA-262 (DayFromYear, MakeDay).
  - A `Date` is a valid (year, month, day) triple.
  - `DayNumber` counts days from 1970-01-01.
  - `MakeDate` normalises an overflowing day-of-month into the following months,
    as MakeDay does.
  - `AddDays`, `AddMonths` and `AddYears` are `setDate(getDate() + n)`,
    `setMonth(getMonth() + n)` and `setFullYear(getFullYear() + n)`.
  - `OnOrBefore` is JavaScript's `<=` on two dates. It is proved to coincide
    with comparing day numbers, which is comparing time values.
- `events.dfy` (modules `Wrappers` and `Events`) holds the event record, the
  repeat types and the repeat configuration.
- `repeat_events.dfy` (module `RepeatEvents`) holds the expander.
  - `NextOccurrence` is one step of a generator.
  - `Series` is the list a generator returns from a given first date.
  - The four generator methods keep the source's mutable date, loop and push.
    Each is proved to return `Series`.
  - `Expand` and `GenerateRepeatEvents` are the dispatcher.
  - The lemmas state what the list holds: copies of the seed, on or before the
    end date, stepping by `NextOccurrence` and stopping at the first step past
    the end, strictly increasing, evenly spaced for daily and weekly series, and
    of a computed length. A list with those properties is `Series` itself.
- `repeat_events_examples.dfy` (module `RepeatEventsExamples`) holds the lists
  the unit tests expect and two cases of month-end and leap-day drift. Each
  example states the list `Expand` returns for a seed with the given date and
  configuration. Its proof computes the chain of steps from the seed's date and
  where the end date falls. `SeriesUnique`, applied in `ExpandFromChain`, turns
  that chain into the list.

### Behaviour worth knowing

The model follows the code as written in two places where a reader might expect
something else.

- **Month-end and leap-day overflow.** Stepping does not skip a month or year
  that lacks the seed's day, and it does not clamp to the month's last day. The
  code calls `setMonth` and `setFullYear`, which keep the day-of-month and
  overflow it into the next month. Later steps continue from the drifted date,
  because the same `Date` object is mutated.
  - A monthly series from 2025-01-31 to 2025-05-31 gives January 31st, March
    3rd, April 3rd and May 3rd (`RepeatEventsExamples.MonthEndDrift`). It does
    not give March 31st or May 31st.
  - A yearly series from 2024-02-29 gives March 1st in every later year, the
    leap year 2028 included (`RepeatEventsExamples.LeapDayDrift`).
- **`'none'`.** A `'none'` repeat is not expanded to the single seed. The
  code's `switch` has no `none` branch, so the result is `undefined`
  (`RepeatEventsExamples.NoRepeatExample`). The hook never passes `'none'` to
  the expander.

## Model

| member | source | states |
|---|---|---|
| Calendar.DaysInMonth | src/utils/repeatEvents.ts:39 | the length of every month: 28 exactly for February of a common year, 29 exactly for February of a leap year, 30 exactly for April, June, September and November, 31 exactly for the other seven |
| Calendar.NextMonth | src/utils/repeatEvents.ts:39 | the month after (y, m) is one month later on the absolute month count, December carrying into January of the next year |
| Calendar.MonthsLater | src/utils/repeatEvents.ts:39 | `getMonth() + n` lands n months later on the absolute month count, with the month kept in 1..12 and the carry into the year floored |
| Calendar.YearLength | src/utils/repeatEvents.ts:13 | the first day of year y + 1 comes 366 days after the first day of year y when y is a leap year under the 4/100/400 rule, and 365 days after otherwise: the closed form of DayFromYear agrees with the leap-year rule |
| Calendar.NextMonthStart | src/utils/repeatEvents.ts:13 | the next month starts DaysInMonth days after the current one |
| Calendar.MonthStartMonotone | src/utils/repeatEvents.ts:8 | a later month starts no earlier than the end of an earlier month |
| Calendar.DayNumberOrder | src/utils/repeatEvents.ts:8 | day numbers order dates as the calendar does: smaller exactly when earlier, equal exactly when the same date |
| Calendar.OnOrBeforeIsTimeOrder | src/utils/repeatEvents.ts:8 | the loop guard `startDate <= endDate` holds exactly when the start's day number (its time value at midnight UTC) is at most the end's |
| Calendar.RankOrder | src/utils/repeatEvents.ts:8 | an earlier date has a smaller rank, the measure that shows each loop ends |
| Calendar.MakeDateDayNumber | src/utils/repeatEvents.ts:13 | MakeDay: day d of month (y, m), however large d is, is d - 1 days after the first of that month |
| Calendar.AddDaysDayNumber | src/utils/repeatEvents.ts:13 | `setDate(getDate() + n)` moves the date exactly n days on |
| Calendar.MakeDateOverflow | src/utils/repeatEvents.ts:39 | a day-of-month the month has is kept; one it lacks overflows into the next month by the excess |
| Calendar.AddMonthsOverflow | src/utils/repeatEvents.ts:39 | `setMonth(getMonth() + n)` keeps the day when the target month has it, and otherwise lands in the month after with the excess days (January 31st + 1 month is March 3rd in a common year) |
| Calendar.AddYearsOverflow | src/utils/repeatEvents.ts:52 | `setFullYear(getFullYear() + n)` keeps month and day, except that February 29th becomes March 1st of a common year |
| Calendar.AddDaysAdvances | src/utils/repeatEvents.ts:13 | adding n >= 1 days yields a strictly later date |
| Calendar.AddMonthsAdvances | src/utils/repeatEvents.ts:39 | adding n >= 1 months yields a strictly later date, overflow included |
| Calendar.AddYearsAdvances | src/utils/repeatEvents.ts:52 | adding n >= 1 years yields a strictly later date, overflow included |
| RepeatEvents.NextOccurrence | src/utils/repeatEvents.ts:13 | one step of a generator (interval days, 7 * interval days, interval months or interval years) strictly advances the date |
| RepeatEvents.Series | src/utils/repeatEvents.ts:8-14 | the list is empty exactly when the first date is after the end date, for any interval, and otherwise starts with the seed carrying the first date |
| RepeatEvents.SeriesCopies | src/utils/repeatEvents.ts:9-12 | every element is the seed spread with only `date` replaced |
| RepeatEvents.SeriesWithinRange | src/utils/repeatEvents.ts:8 | every element is dated on or after the first date and on or before the end date (the guard is `<=`, so the end date is reachable) |
| RepeatEvents.SeriesSteps | src/utils/repeatEvents.ts:8-14 | each element after the first is dated one step after the one before it, and one more step after the last passes the end date |
| RepeatEvents.SeriesUnique | src/utils/repeatEvents.ts:3-17 | any list of seed copies that starts at the first date, steps by NextOccurrence, stays on or before the end and stops at the first step past it is exactly Series |
| RepeatEvents.SeriesIncreasing | src/utils/repeatEvents.ts:8-14 | dates strictly increase along the list, so no two events share a date |
| RepeatEvents.NextOccurrenceDays | src/utils/repeatEvents.ts:26 | a daily step adds interval days and a weekly step 7 * interval days to the day number |
| RepeatEvents.DayStepSpacing | src/utils/repeatEvents.ts:24-27 | in a daily or weekly list the i-th event is i steps of days after the first |
| RepeatEvents.LastCopy | src/utils/repeatEvents.ts:8-13 | the last event of a daily or weekly list lies on or before the end date and less than one step before it |
| RepeatEvents.DayStepCount | src/utils/repeatEvents.ts:3-17 | a daily or weekly list from a date on or before the end has (dayNumber(end) - dayNumber(start)) div step + 1 events |
| RepeatEvents.SeriesStep | src/utils/repeatEvents.ts:8-14 | one loop iteration: the remaining list is the current copy followed by the list from the next date, which is strictly later |
| RepeatEvents.GenerateDailyRepeatEvents | src/utils/repeatEvents.ts:3-17 | the loop over a mutable date returns exactly the daily Series from the seed's date to the end date |
| RepeatEvents.GenerateWeeklyRepeatEvents | src/utils/repeatEvents.ts:19-30 | the loop returns exactly the weekly Series (steps of 7 * interval days) |
| RepeatEvents.GenerateMonthlyRepeatEvents | src/utils/repeatEvents.ts:32-43 | the loop returns exactly the monthly Series, each step taken from the previous, possibly drifted, date |
| RepeatEvents.GenerateYearlyRepeatEvents | src/utils/repeatEvents.ts:45-56 | the loop returns exactly the yearly Series |
| RepeatEvents.Expand | src/utils/repeatEvents.ts:58-73 | a list comes back exactly when there is an end date and the type is daily, weekly, monthly or yearly, and it is that type's Series from the seed's date; otherwise `undefined` |
| RepeatEvents.GenerateRepeatEvents | src/utils/repeatEvents.ts:58-73 | the guard and the switch over the four generators return what Expand describes |
| RepeatEvents.ExpandedSeries | src/utils/repeatEvents.ts:58-73 | an expanded list holds copies of the seed, on or between the seed's date and the end date, in strictly increasing order; it is empty exactly when the end date is before the seed's date (whatever the interval), and otherwise starts with the seed itself |
| RepeatEvents.ExpandOnEndDate | src/utils/repeatEvents.ts:8-12 | a seed dated on its own end date expands to exactly itself |
| RepeatEventsExamples.ExpandFromChain | src/utils/repeatEvents.ts:58-73 | a list that starts with the seed, steps by one generator step, stays on or before the end date and stops at the first step past it is exactly what the dispatcher returns |
| RepeatEventsExamples.DailyExample | src/__tests__/unit/repeatEvents.spec.ts:56-68 | for a seed dated 2025-07-01, a daily repeat with interval 1 ending 2025-07-03 expands to the seed and its copies dated July 2nd and 3rd, in that order |
| RepeatEventsExamples.WeeklyExample | src/__tests__/unit/repeatEvents.spec.ts:70-84 | for a seed dated 2025-07-01, a weekly repeat with interval 2 ending 2025-09-01 expands to the seed and its copies dated July 15th and 29th and August 12th and 26th |
| RepeatEventsExamples.MonthlyExample | src/__tests__/unit/repeatEvents.spec.ts:86-98 | for a seed dated 2025-07-02, a monthly repeat with interval 1 ending 2025-09-02 expands to the seed and its copies dated August 2nd and September 2nd, the end date included |
| RepeatEventsExamples.YearlyExample | src/__tests__/unit/repeatEvents.spec.ts:100-111 | for a seed dated 2025-07-03, a yearly repeat with interval 1 ending 2026-07-03 expands to the seed and its copy dated 2026-07-03 |
| RepeatEventsExamples.ReversedRangeExample | src/utils/repeatEvents.ts:8 | for a seed dated 2025-07-10, a daily repeat with interval 0 ending 2025-07-01 expands to the empty list, not `undefined`: the guard fails before the first step, whatever the interval |
| RepeatEventsExamples.NoEndDateExample | src/__tests__/unit/repeatEvents.spec.ts:113-121 | without an end date the result is `undefined` |
| RepeatEventsExamples.NoRepeatExample | src/utils/repeatEvents.ts:63-72 | a `'none'` repeat is not expanded: `undefined`, not `[seed]` |
| RepeatEventsExamples.MonthEndDrift | src/utils/repeatEvents.ts:39 | for a seed dated 2025-01-31, a monthly repeat ending 2025-05-31 expands to the seed and its copies dated March 3rd, April 3rd and May 3rd |
| RepeatEventsExamples.LeapDayDrift | src/utils/repeatEvents.ts:52 | for a seed dated 2024-02-29, a yearly repeat ending 2028-12-31 expands to the seed and its copies dated March 1st of 2025, 2026, 2027 and 2028 |

## Left out

- Time zones and daylight saving time are not modelled. `new Date('YYYY-MM-DD')`
  parses as UTC, stepping uses the local-time setters, and output goes through
  `toISOString()`. The model assumes local time is UTC, and then all three agree
  on the calendar date.
- Date strings are not modelled. Parsing `event.date` and `endDate`, and
  formatting with `toISOString().split('T')[0]`, are left out: dates are
  calendar values, and an end date that parses to an invalid `Date` is outside
  the model.
- The range limit of JavaScript dates (±8.64e15 ms) is not modelled. Years are
  unbounded.
- Intervals below 1 are modelled only when the seed is dated after the end
  date. The loop guard then fails at once, and the source returns `[]` for any
  interval; the model does the same (`RepeatEventsExamples.ReversedRangeExample`).
  When the seed is on or before the end date, the generators, `Series`,
  `Expand` and `GenerateRepeatEvents` require `interval >= 1`:
  - an interval of 0 never moves the date, so the source loops forever;
  - a negative interval walks the date backwards until it leaves JavaScript's
    date range. The time value then becomes NaN, `NaN <= end` is false, and the
    loop ends after a very long list (about 274,000 events for a yearly
    interval of -1 from 2025). That range limit is not modelled (see above), so
    no result is stated for it.
- Non-integer intervals are not modelled. `interval` is a JavaScript number,
  but the model takes an integer. `setDate` and `setMonth` truncate the new day
  or month toward zero (ToIntegerOrInfinity in MakeDay). A daily interval of 1.5
  therefore steps one day, a weekly interval of 1.5 steps ten days, and a daily
  interval of 0.5 never advances, so that loop does not end.
- The saving hook, its network requests and notifications are not part of this
  model. `src/hooks/useEventOperations.ts` only calls the expander.
- The mock HTTP handlers are not part of this model, including the assignment of
  a series id to the saved events.
- Object sharing is not modelled, because the events are values. The spread
  `{ ...event, date }` is shallow, so every copy shares the seed's `repeat`
  object. When the hook calls the expander, that object is the configuration
  itself (`src/hooks/useEventOperations.ts:31`). Nothing mutates the shared
  object, and the hook serialises the list at once
  (`src/hooks/useEventOperations.ts:37-41`), so the sharing is never
  observable.
