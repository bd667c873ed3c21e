/**
  The recurrence expander: from a seed event and a repeat configuration, the
  list of copies of the seed, one per occurrence from the seed's date up to
  and including the end date.

  Each generator keeps one mutable date, starting at the seed's date; while
  that date is on or before the end date it pushes a copy of the seed carrying
  the date, then moves the date on by the repeat interval.  Monthly and yearly
  steps start from the date the previous step produced, so a day-of-month that
  overflowed once (January 31st plus one month is March 3rd) stays shifted.
 */
module RepeatEvents {
  import opened Wrappers
  import opened Calendar
  import opened Events

  /** The date one step after d: the statement at the end of each generator's loop. */
  function NextOccurrence(kind: RepeatType, interval: int, d: Date): (r: Date)
    requires kind.IsCalendarUnit() && interval >= 1
    ensures CalendarBefore(d, r)
  {
    match kind
    case Daily => AddDaysAdvances(d, interval); AddDays(d, interval)
    case Weekly => AddDaysAdvances(d, 7 * interval); AddDays(d, 7 * interval)
    case Monthly => AddMonthsAdvances(d, interval); AddMonths(d, interval)
    case Yearly => AddYearsAdvances(d, interval); AddYears(d, interval)
  }

  /**
    The copies of seed dated from, NextOccurrence(from), ... as long as the
    date is on or before end: what every generator returns, given its first
    date.  The lemmas below say what the list holds.  When from is already
    past end the loop body never runs, so the list is empty whatever the
    interval; otherwise the interval must be at least 1 for the loop to end.
   */
  function Series(seed: Event, kind: RepeatType, interval: int, from: Date, end: Date): (r: seq<Event>)
    requires kind.IsCalendarUnit() && (interval >= 1 || CalendarBefore(end, from))
    ensures r == [] <==> !OnOrBefore(from, end)
    ensures r != [] ==> r[0] == seed.(date := from)
    decreases Rank(end) - Rank(from)
  {
    if OnOrBefore(from, end) then
      [seed.(date := from)] + Series(seed, kind, interval, NextOccurrence(kind, interval, from), end)
    else
      []
  }

  /** Every event of r is seed with only its date replaced. */
  predicate CopiesOf(r: seq<Event>, seed: Event) {
    forall i :: 0 <= i < |r| ==> r[i] == seed.(date := r[i].date)
  }

  /** Every event of r is dated on or after from and on or before end. */
  predicate WithinRange(r: seq<Event>, from: Date, end: Date) {
    forall i :: 0 <= i < |r| ==> OnOrBefore(from, r[i].date) && OnOrBefore(r[i].date, end)
  }

  /** Each event of r after the first is dated one step after the one before it. */
  predicate Stepwise(r: seq<Event>, kind: RepeatType, interval: int)
    requires kind.IsCalendarUnit() && interval >= 1
  {
    forall i :: 0 <= i < |r| - 1 ==> r[i + 1].date == NextOccurrence(kind, interval, r[i].date)
  }

  /** One more step after the last event of r would pass end. */
  predicate StopsAt(r: seq<Event>, kind: RepeatType, interval: int, end: Date)
    requires kind.IsCalendarUnit() && interval >= 1
  {
    r != [] ==> !OnOrBefore(NextOccurrence(kind, interval, r[|r| - 1].date), end)
  }

  /** The spread `{ ...event, date }`: no field but the date differs from the seed. */
  lemma {:induction false} SeriesCopies(seed: Event, kind: RepeatType, interval: int, from: Date, end: Date)
    requires kind.IsCalendarUnit() && interval >= 1
    ensures CopiesOf(Series(seed, kind, interval, from, end), seed)
    decreases Rank(end) - Rank(from)
  {
    var r := Series(seed, kind, interval, from, end);
    if r != [] {
      var next := NextOccurrence(kind, interval, from);
      var rest := Series(seed, kind, interval, next, end);
      assert r == [seed.(date := from)] + rest;
      SeriesCopies(seed, kind, interval, next, end);
      forall i | 1 <= i < |r|
        ensures r[i] == seed.(date := r[i].date)
      {
        assert r[i] == rest[i - 1];
      }
    }
  }

  /** No event is dated before from or after end (the loop guard is `<=`). */
  lemma {:induction false} SeriesWithinRange(seed: Event, kind: RepeatType, interval: int, from: Date, end: Date)
    requires kind.IsCalendarUnit() && interval >= 1
    ensures WithinRange(Series(seed, kind, interval, from, end), from, end)
    decreases Rank(end) - Rank(from)
  {
    var r := Series(seed, kind, interval, from, end);
    if r != [] {
      var next := NextOccurrence(kind, interval, from);
      var rest := Series(seed, kind, interval, next, end);
      assert r == [seed.(date := from)] + rest;
      SeriesWithinRange(seed, kind, interval, next, end);
      forall i | 1 <= i < |r|
        ensures OnOrBefore(from, r[i].date) && OnOrBefore(r[i].date, end)
      {
        assert r[i] == rest[i - 1];
      }
    }
  }

  /**
    Consecutive events are exactly one step apart, and the series ends only
    where one more step would pass end: nothing is skipped and nothing is
    cut short.
   */
  lemma {:induction false} SeriesSteps(seed: Event, kind: RepeatType, interval: int, from: Date, end: Date)
    requires kind.IsCalendarUnit() && interval >= 1
    ensures Stepwise(Series(seed, kind, interval, from, end), kind, interval)
    ensures StopsAt(Series(seed, kind, interval, from, end), kind, interval, end)
    decreases Rank(end) - Rank(from)
  {
    var r := Series(seed, kind, interval, from, end);
    if r != [] {
      var next := NextOccurrence(kind, interval, from);
      var rest := Series(seed, kind, interval, next, end);
      assert r == [seed.(date := from)] + rest;
      SeriesSteps(seed, kind, interval, next, end);
      forall i | 0 <= i < |r| - 1
        ensures r[i + 1].date == NextOccurrence(kind, interval, r[i].date)
      {
        assert r[i + 1] == rest[i];
        if i > 0 {
          assert r[i] == rest[i - 1];
        }
      }
      if rest != [] {
        assert r[|r| - 1] == rest[|rest| - 1];
      }
    }
  }

  /**
    The lemmas above pin the list down: a list of copies of the seed that
    starts at from, steps by NextOccurrence, stays on or before end and stops
    only where the next step would pass end is Series itself.
   */
  lemma {:induction false} SeriesUnique(seed: Event, kind: RepeatType, interval: int, from: Date, end: Date, s: seq<Event>)
    requires kind.IsCalendarUnit() && interval >= 1
    requires s == [] <==> !OnOrBefore(from, end)
    requires s != [] ==> s[0].date == from
    requires CopiesOf(s, seed) && Stepwise(s, kind, interval) && StopsAt(s, kind, interval, end)
    requires forall i :: 0 <= i < |s| ==> OnOrBefore(s[i].date, end)
    ensures s == Series(seed, kind, interval, from, end)
    decreases |s|
  {
    if s != [] {
      var next := NextOccurrence(kind, interval, from);
      var rest := s[1..];
      assert rest != [] ==> rest[0].date == next;
      assert CopiesOf(rest, seed);
      forall i | 0 <= i < |rest| - 1
        ensures rest[i + 1].date == NextOccurrence(kind, interval, rest[i].date)
      {
        assert rest[i + 1] == s[i + 2] && rest[i] == s[i + 1];
      }
      if rest != [] {
        assert rest[|rest| - 1] == s[|s| - 1];
      } else {
        assert !OnOrBefore(next, end);
      }
      SeriesUnique(seed, kind, interval, next, end, rest);
      assert s == [seed.(date := from)] + rest;
    }
  }

  /** Dates strictly increase along r, so no two copies share a date. */
  predicate StrictlyIncreasing(r: seq<Event>) {
    forall i, j :: 0 <= i < j < |r| ==> CalendarBefore(r[i].date, r[j].date)
  }

  lemma {:induction false} SeriesIncreasing(seed: Event, kind: RepeatType, interval: int, from: Date, end: Date)
    requires kind.IsCalendarUnit() && interval >= 1
    ensures StrictlyIncreasing(Series(seed, kind, interval, from, end))
    decreases Rank(end) - Rank(from)
  {
    var r := Series(seed, kind, interval, from, end);
    if r != [] {
      var next := NextOccurrence(kind, interval, from);
      var rest := Series(seed, kind, interval, next, end);
      assert r == [seed.(date := from)] + rest;
      SeriesIncreasing(seed, kind, interval, next, end);
      forall i, j | 0 <= i < j < |r|
        ensures CalendarBefore(r[i].date, r[j].date)
      {
        assert r[j] == rest[j - 1];
        if i > 0 {
          assert r[i] == rest[i - 1];
        }
      }
    }
  }

  /** Days between consecutive daily (interval) or weekly (7 * interval) occurrences. */
  function DayStep(kind: RepeatType, interval: int): int
    requires kind.Daily? || kind.Weekly?
  {
    if kind.Daily? then interval else 7 * interval
  }

  /** The i-th copy in r is dated i * step days after first. */
  predicate EvenlySpaced(r: seq<Event>, first: Date, step: int) {
    forall i :: 0 <= i < |r| ==> DayNumber(r[i].date) == DayNumber(first) + i * step
  }

  /** A daily or weekly step adds DayStep days to the day number. */
  lemma NextOccurrenceDays(kind: RepeatType, interval: int, d: Date)
    requires (kind.Daily? || kind.Weekly?) && interval >= 1
    ensures DayNumber(NextOccurrence(kind, interval, d)) == DayNumber(d) + DayStep(kind, interval)
  {
    AddDaysDayNumber(d, DayStep(kind, interval));
  }

  /** Daily and weekly series: the i-th copy is dated i steps after the first. */
  lemma {:induction false} DayStepSpacing(seed: Event, kind: RepeatType, interval: int, from: Date, end: Date)
    requires (kind.Daily? || kind.Weekly?) && interval >= 1
    ensures EvenlySpaced(Series(seed, kind, interval, from, end), from, DayStep(kind, interval))
    decreases Rank(end) - Rank(from)
  {
    var r := Series(seed, kind, interval, from, end);
    if r != [] {
      var step := DayStep(kind, interval);
      var next := NextOccurrence(kind, interval, from);
      NextOccurrenceDays(kind, interval, from);
      var rest := Series(seed, kind, interval, next, end);
      assert r == [seed.(date := from)] + rest;
      DayStepSpacing(seed, kind, interval, next, end);
      SpacedCons(seed.(date := from), rest, next, step);
    }
  }

  /** Putting an event one step before an evenly spaced list keeps it evenly spaced. */
  lemma SpacedCons(x: Event, rest: seq<Event>, next: Date, step: int)
    requires EvenlySpaced(rest, next, step) && DayNumber(next) == DayNumber(x.date) + step
    ensures EvenlySpaced([x] + rest, x.date, step)
  {
    var r := [x] + rest;
    forall i | 1 <= i < |r|
      ensures DayNumber(r[i].date) == DayNumber(x.date) + i * step
    {
      assert r[i] == rest[i - 1];
      Shift(DayNumber(r[i].date), DayNumber(next), DayNumber(x.date), i, step);
    }
  }

  /**
    A daily or weekly series that is not empty has
    `(DayNumber(end) - DayNumber(from)) / step + 1` copies: its last copy is
    the last multiple of the step on or before end.
   */
  lemma DayStepCount(seed: Event, kind: RepeatType, interval: int, from: Date, end: Date)
    requires (kind.Daily? || kind.Weekly?) && interval >= 1
    requires OnOrBefore(from, end)
    ensures |Series(seed, kind, interval, from, end)| == (DayNumber(end) - DayNumber(from)) / DayStep(kind, interval) + 1
  {
    var r := Series(seed, kind, interval, from, end);
    var last := r[|r| - 1].date;
    LastCopy(seed, kind, interval, from, end);
    DivRemainder(DayNumber(end) - DayNumber(from), DayStep(kind, interval), |r| - 1, DayNumber(end) - DayNumber(last));
  }

  /** The last copy of a daily or weekly series lies less than one step before end. */
  lemma LastCopy(seed: Event, kind: RepeatType, interval: int, from: Date, end: Date)
    requires (kind.Daily? || kind.Weekly?) && interval >= 1
    requires OnOrBefore(from, end)
    ensures var r := Series(seed, kind, interval, from, end);
      r != [] &&
      DayNumber(r[|r| - 1].date) == DayNumber(from) + DayStep(kind, interval) * (|r| - 1) &&
      DayNumber(r[|r| - 1].date) <= DayNumber(end) < DayNumber(r[|r| - 1].date) + DayStep(kind, interval)
  {
    var r := Series(seed, kind, interval, from, end);
    var last := r[|r| - 1].date;
    DayStepSpacing(seed, kind, interval, from, end);
    SeriesWithinRange(seed, kind, interval, from, end);
    SeriesSteps(seed, kind, interval, from, end);
    NextOccurrenceDays(kind, interval, last);
    OnOrBeforeIsTimeOrder(last, end);
    OnOrBeforeIsTimeOrder(NextOccurrence(kind, interval, last), end);
    assert (|r| - 1) * DayStep(kind, interval) == DayStep(kind, interval) * (|r| - 1);
  }

  lemma Shift(a: int, b: int, c: int, i: int, step: int)
    requires a == b + (i - 1) * step && b == c + step
    ensures a == c + i * step
  {
    assert (i - 1) * step + step == i * step;
  }

  /**
    One iteration of a generator: on or before end, the series is the current
    copy followed by the series from the next date, which lies further on.
   */
  lemma SeriesStep(seed: Event, kind: RepeatType, interval: int, from: Date, end: Date)
    requires kind.IsCalendarUnit() && interval >= 1 && OnOrBefore(from, end)
    ensures Series(seed, kind, interval, from, end)
         == [seed.(date := from)] + Series(seed, kind, interval, NextOccurrence(kind, interval, from), end)
    ensures Rank(from) <= Rank(end) && Rank(from) < Rank(NextOccurrence(kind, interval, from))
  {
    RankOrder(end, from);
    RankOrder(from, NextOccurrence(kind, interval, from));
  }

  // ---------------------------------------------------------------------------
  // The four generators.  Each copies the seed's date into a mutable date and,
  // while that date is on or before the end date, pushes a copy of the seed
  // carrying it and steps the date.

  method GenerateDailyRepeatEvents(event: Event, config: RepeatInfo) returns (events: seq<Event>)
    requires config.endDate.Some?
    requires config.interval >= 1 || CalendarBefore(config.endDate.value, event.date)
    ensures events == Series(event, Daily, config.interval, event.date, config.endDate.value)
  {
    var startDate := event.date;
    var endDate := config.endDate.value;
    events := [];
    while OnOrBefore(startDate, endDate)
      invariant config.interval >= 1 || CalendarBefore(endDate, startDate)
      invariant events + Series(event, Daily, config.interval, startDate, endDate)
             == Series(event, Daily, config.interval, event.date, endDate)
      decreases Rank(endDate) - Rank(startDate)
    {
      SeriesStep(event, Daily, config.interval, startDate, endDate);
      events := events + [event.(date := startDate)];
      startDate := AddDays(startDate, config.interval);
    }
  }

  method GenerateWeeklyRepeatEvents(event: Event, config: RepeatInfo) returns (events: seq<Event>)
    requires config.endDate.Some?
    requires config.interval >= 1 || CalendarBefore(config.endDate.value, event.date)
    ensures events == Series(event, Weekly, config.interval, event.date, config.endDate.value)
  {
    var startDate := event.date;
    var endDate := config.endDate.value;
    events := [];
    while OnOrBefore(startDate, endDate)
      invariant config.interval >= 1 || CalendarBefore(endDate, startDate)
      invariant events + Series(event, Weekly, config.interval, startDate, endDate)
             == Series(event, Weekly, config.interval, event.date, endDate)
      decreases Rank(endDate) - Rank(startDate)
    {
      SeriesStep(event, Weekly, config.interval, startDate, endDate);
      events := events + [event.(date := startDate)];
      startDate := AddDays(startDate, 7 * config.interval);
    }
  }

  method GenerateMonthlyRepeatEvents(event: Event, config: RepeatInfo) returns (events: seq<Event>)
    requires config.endDate.Some?
    requires config.interval >= 1 || CalendarBefore(config.endDate.value, event.date)
    ensures events == Series(event, Monthly, config.interval, event.date, config.endDate.value)
  {
    var startDate := event.date;
    var endDate := config.endDate.value;
    events := [];
    while OnOrBefore(startDate, endDate)
      invariant config.interval >= 1 || CalendarBefore(endDate, startDate)
      invariant events + Series(event, Monthly, config.interval, startDate, endDate)
             == Series(event, Monthly, config.interval, event.date, endDate)
      decreases Rank(endDate) - Rank(startDate)
    {
      SeriesStep(event, Monthly, config.interval, startDate, endDate);
      events := events + [event.(date := startDate)];
      startDate := AddMonths(startDate, config.interval);
    }
  }

  method GenerateYearlyRepeatEvents(event: Event, config: RepeatInfo) returns (events: seq<Event>)
    requires config.endDate.Some?
    requires config.interval >= 1 || CalendarBefore(config.endDate.value, event.date)
    ensures events == Series(event, Yearly, config.interval, event.date, config.endDate.value)
  {
    var startDate := event.date;
    var endDate := config.endDate.value;
    events := [];
    while OnOrBefore(startDate, endDate)
      invariant config.interval >= 1 || CalendarBefore(endDate, startDate)
      invariant events + Series(event, Yearly, config.interval, startDate, endDate)
             == Series(event, Yearly, config.interval, event.date, endDate)
      decreases Rank(endDate) - Rank(startDate)
    {
      SeriesStep(event, Yearly, config.interval, startDate, endDate);
      events := events + [event.(date := startDate)];
      startDate := AddYears(startDate, config.interval);
    }
  }

  // ---------------------------------------------------------------------------
  // The dispatcher

  /**
    What the dispatcher returns: no list (`undefined`) when the end date is
    missing or the type has no generator, 'none' included; otherwise the
    series of the type's generator.  The interval matters only when a
    generator's loop body runs, that is when the seed is dated on or before
    the end date, and must then be at least 1 for the loop to end.
   */
  function Expand(event: Event, config: RepeatInfo): (r: Option<seq<Event>>)
    requires config.endDate.Some? && config.kind.IsCalendarUnit() ==>
               config.interval >= 1 || CalendarBefore(config.endDate.value, event.date)
    ensures r.Some? <==> config.endDate.Some? && config.kind.IsCalendarUnit()
    ensures r.Some? ==> r.value == Series(event, config.kind, config.interval, event.date, config.endDate.value)
  {
    if config.endDate.None? then None
    else
      match config.kind
      case Daily => Some(Series(event, Daily, config.interval, event.date, config.endDate.value))
      case Weekly => Some(Series(event, Weekly, config.interval, event.date, config.endDate.value))
      case Monthly => Some(Series(event, Monthly, config.interval, event.date, config.endDate.value))
      case Yearly => Some(Series(event, Yearly, config.interval, event.date, config.endDate.value))
      case NoRepeat => None
      case Unrecognized(_) => None
  }

  method GenerateRepeatEvents(event: Event, config: RepeatInfo) returns (r: Option<seq<Event>>)
    requires config.endDate.Some? && config.kind.IsCalendarUnit() ==>
               config.interval >= 1 || CalendarBefore(config.endDate.value, event.date)
    ensures r == Expand(event, config)
  {
    if config.endDate.None? {
      return None;
    }
    match config.kind {
      case Daily =>
        var events := GenerateDailyRepeatEvents(event, config);
        r := Some(events);
      case Weekly =>
        var events := GenerateWeeklyRepeatEvents(event, config);
        r := Some(events);
      case Monthly =>
        var events := GenerateMonthlyRepeatEvents(event, config);
        r := Some(events);
      case Yearly =>
        var events := GenerateYearlyRepeatEvents(event, config);
        r := Some(events);
      case NoRepeat =>
        r := None;
      case Unrecognized(_) =>
        r := None;
    }
  }

  /**
    A list the dispatcher returns holds copies of the seed that differ only in
    their date, dated from the seed's date to the end date inclusive, in
    strictly increasing order; it starts with the seed itself unless the seed
    is dated after the end date, and then it is empty rather than missing.
   */
  lemma ExpandedSeries(event: Event, config: RepeatInfo)
    requires config.endDate.Some? && config.kind.IsCalendarUnit()
    requires config.interval >= 1 || CalendarBefore(config.endDate.value, event.date)
    ensures Expand(event, config).Some?
    ensures CopiesOf(Expand(event, config).value, event)
    ensures WithinRange(Expand(event, config).value, event.date, config.endDate.value)
    ensures StrictlyIncreasing(Expand(event, config).value)
    ensures Expand(event, config).value == [] <==> CalendarBefore(config.endDate.value, event.date)
    ensures Expand(event, config).value != [] ==> Expand(event, config).value[0] == event
  {
    var end := config.endDate.value;
    if config.interval >= 1 {
      SeriesCopies(event, config.kind, config.interval, event.date, end);
      SeriesWithinRange(event, config.kind, config.interval, event.date, end);
      SeriesIncreasing(event, config.kind, config.interval, event.date, end);
    }
  }

  /** A seed dated on the end date gives the one-element list holding the seed. */
  lemma ExpandOnEndDate(event: Event, config: RepeatInfo)
    requires config.kind.IsCalendarUnit() && config.interval >= 1
    requires config.endDate == Some(event.date)
    ensures Expand(event, config) == Some([event])
  {
    var next := NextOccurrence(config.kind, config.interval, event.date);
    var rest := Series(event, config.kind, config.interval, next, event.date);
    assert rest == [];
    assert Series(event, config.kind, config.interval, event.date, event.date) == [event.(date := event.date)] + rest;
    assert event.(date := event.date) == event;
    assert Series(event, config.kind, config.interval, event.date, event.date) == [event];
    assert Expand(event, config).Some?;
    assert Expand(event, config).value == [event];
  }
}
