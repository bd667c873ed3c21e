/**
  The expected lists of the expander's unit tests, and what the overflowing
  month and year steps do to a seed dated on a day that later months or years
  do not have.  Each example states the list the dispatcher returns for a seed
  with the test's date and repeat configuration; its proof computes the chain
  of steps from the seed's date and where the end date falls, and SeriesUnique
  turns that chain into the list.
 */
module RepeatEventsExamples {
  import opened Wrappers
  import opened Calendar
  import opened Events
  import opened RepeatEvents

  /**
    A list starting with the seed, stepping by NextOccurrence and stopping at
    the first step past end is what the dispatcher returns.
   */
  lemma ExpandFromChain(seed: Event, kind: RepeatType, interval: int, end: Date, s: seq<Event>)
    requires kind.IsCalendarUnit() && interval >= 1
    requires s != [] && s[0] == seed && OnOrBefore(seed.date, end)
    requires CopiesOf(s, seed) && Stepwise(s, kind, interval) && StopsAt(s, kind, interval, end)
    requires forall i :: 0 <= i < |s| ==> OnOrBefore(s[i].date, end)
    ensures Expand(seed, RepeatInfo(kind, interval, Some(end))) == Some(s)
  {
    SeriesUnique(seed, kind, interval, seed.date, end, s);
  }

  /** The seed followed by its copies dated 2025-07-02, 2025-07-03: the list DailyExample expects. */
  function DailyList(seed: Event): seq<Event> {
    [seed, seed.(date := CivilDate(2025, 7, 2)), seed.(date := CivilDate(2025, 7, 3))]
  }

  /** The steps of DailyExample and where its end date falls. */
  lemma DailySteps()
    ensures NextOccurrence(Daily, 1, CivilDate(2025, 7, 1)) == CivilDate(2025, 7, 2)
    ensures NextOccurrence(Daily, 1, CivilDate(2025, 7, 2)) == CivilDate(2025, 7, 3)
    ensures NextOccurrence(Daily, 1, CivilDate(2025, 7, 3)) == CivilDate(2025, 7, 4)
    ensures OnOrBefore(CivilDate(2025, 7, 3), CivilDate(2025, 7, 3)) && !OnOrBefore(CivilDate(2025, 7, 4), CivilDate(2025, 7, 3))
  {
  }

  /** The copies DailyExample lists step from one to the next. */
  lemma DailyStepwise(seed: Event, s: seq<Event>)
    requires seed.date == CivilDate(2025, 7, 1)
    requires s == DailyList(seed)
    ensures Stepwise(s, Daily, 1)
  {
    forall i | 0 <= i < |s| - 1
      ensures s[i + 1].date == NextOccurrence(Daily, 1, s[i].date)
    {
      if i == 0 {
        assert s[i].date == CivilDate(2025, 7, 1) && s[i + 1].date == CivilDate(2025, 7, 2);
        DailySteps();
      } else {
        assert s[i].date == CivilDate(2025, 7, 2) && s[i + 1].date == CivilDate(2025, 7, 3);
        DailySteps();
      }
    }
  }

  /** The copies DailyExample lists are copies of the seed on or before its end date. */
  lemma DailyBounds(seed: Event, s: seq<Event>)
    requires seed.date == CivilDate(2025, 7, 1)
    requires s == DailyList(seed)
    ensures CopiesOf(s, seed)
    ensures forall i :: 0 <= i < |s| ==> OnOrBefore(s[i].date, CivilDate(2025, 7, 3))
  {
    assert seed.(date := seed.date) == seed;
  }

  /** One step after the last copy DailyExample lists passes its end date. */
  lemma DailyStops(seed: Event, s: seq<Event>)
    requires seed.date == CivilDate(2025, 7, 1)
    requires s == DailyList(seed)
    ensures StopsAt(s, Daily, 1, CivilDate(2025, 7, 3))
  {
    assert s[|s| - 1].date == CivilDate(2025, 7, 3);
    DailySteps();
  }

  /**
    Every day from July 1st to July 3rd, 2025: July 1st, 2nd and 3rd.
   */
  lemma DailyExample(seed: Event)
    requires seed.date == CivilDate(2025, 7, 1)
    ensures Expand(seed, RepeatInfo(Daily, 1, Some(CivilDate(2025, 7, 3)))) == Some(DailyList(seed))
  {
    var s := DailyList(seed);
    DailyStepwise(seed, s);
    DailyBounds(seed, s);
    DailyStops(seed, s);
    ExpandFromChain(seed, Daily, 1, CivilDate(2025, 7, 3), s);
  }

  /** The seed followed by its copies dated 2025-07-15, 2025-07-29, 2025-08-12, 2025-08-26: the list WeeklyExample expects. */
  function WeeklyList(seed: Event): seq<Event> {
    [seed, seed.(date := CivilDate(2025, 7, 15)), seed.(date := CivilDate(2025, 7, 29)), seed.(date := CivilDate(2025, 8, 12)), seed.(date := CivilDate(2025, 8, 26))]
  }

  /** The steps of WeeklyExample and where its end date falls. */
  lemma WeeklySteps()
    ensures NextOccurrence(Weekly, 2, CivilDate(2025, 7, 1)) == CivilDate(2025, 7, 15)
    ensures NextOccurrence(Weekly, 2, CivilDate(2025, 7, 15)) == CivilDate(2025, 7, 29)
    ensures NextOccurrence(Weekly, 2, CivilDate(2025, 7, 29)) == CivilDate(2025, 8, 12)
    ensures NextOccurrence(Weekly, 2, CivilDate(2025, 8, 12)) == CivilDate(2025, 8, 26)
    ensures NextOccurrence(Weekly, 2, CivilDate(2025, 8, 26)) == CivilDate(2025, 9, 9)
    ensures OnOrBefore(CivilDate(2025, 8, 26), CivilDate(2025, 9, 1)) && !OnOrBefore(CivilDate(2025, 9, 9), CivilDate(2025, 9, 1))
  {
  }

  /** The copies WeeklyExample lists step from one to the next. */
  lemma WeeklyStepwise(seed: Event, s: seq<Event>)
    requires seed.date == CivilDate(2025, 7, 1)
    requires s == WeeklyList(seed)
    ensures Stepwise(s, Weekly, 2)
  {
    forall i | 0 <= i < |s| - 1
      ensures s[i + 1].date == NextOccurrence(Weekly, 2, s[i].date)
    {
      if i == 0 {
        assert s[i].date == CivilDate(2025, 7, 1) && s[i + 1].date == CivilDate(2025, 7, 15);
        WeeklySteps();
      } else if i == 1 {
        assert s[i].date == CivilDate(2025, 7, 15) && s[i + 1].date == CivilDate(2025, 7, 29);
        WeeklySteps();
      } else if i == 2 {
        assert s[i].date == CivilDate(2025, 7, 29) && s[i + 1].date == CivilDate(2025, 8, 12);
        WeeklySteps();
      } else {
        assert s[i].date == CivilDate(2025, 8, 12) && s[i + 1].date == CivilDate(2025, 8, 26);
        WeeklySteps();
      }
    }
  }

  /** The copies WeeklyExample lists are copies of the seed on or before its end date. */
  lemma WeeklyBounds(seed: Event, s: seq<Event>)
    requires seed.date == CivilDate(2025, 7, 1)
    requires s == WeeklyList(seed)
    ensures CopiesOf(s, seed)
    ensures forall i :: 0 <= i < |s| ==> OnOrBefore(s[i].date, CivilDate(2025, 9, 1))
  {
    assert seed.(date := seed.date) == seed;
  }

  /** One step after the last copy WeeklyExample lists passes its end date. */
  lemma WeeklyStops(seed: Event, s: seq<Event>)
    requires seed.date == CivilDate(2025, 7, 1)
    requires s == WeeklyList(seed)
    ensures StopsAt(s, Weekly, 2, CivilDate(2025, 9, 1))
  {
    assert s[|s| - 1].date == CivilDate(2025, 8, 26);
    WeeklySteps();
  }

  /**
    Every second week from July 1st to September 1st, 2025: July 1st, 15th
    and 29th, August 12th and 26th.
   */
  lemma WeeklyExample(seed: Event)
    requires seed.date == CivilDate(2025, 7, 1)
    ensures Expand(seed, RepeatInfo(Weekly, 2, Some(CivilDate(2025, 9, 1)))) == Some(WeeklyList(seed))
  {
    var s := WeeklyList(seed);
    WeeklyStepwise(seed, s);
    WeeklyBounds(seed, s);
    WeeklyStops(seed, s);
    ExpandFromChain(seed, Weekly, 2, CivilDate(2025, 9, 1), s);
  }

  /** The seed followed by its copies dated 2025-08-02, 2025-09-02: the list MonthlyExample expects. */
  function MonthlyList(seed: Event): seq<Event> {
    [seed, seed.(date := CivilDate(2025, 8, 2)), seed.(date := CivilDate(2025, 9, 2))]
  }

  /** The steps of MonthlyExample and where its end date falls. */
  lemma MonthlySteps()
    ensures NextOccurrence(Monthly, 1, CivilDate(2025, 7, 2)) == CivilDate(2025, 8, 2)
    ensures NextOccurrence(Monthly, 1, CivilDate(2025, 8, 2)) == CivilDate(2025, 9, 2)
    ensures NextOccurrence(Monthly, 1, CivilDate(2025, 9, 2)) == CivilDate(2025, 10, 2)
    ensures OnOrBefore(CivilDate(2025, 9, 2), CivilDate(2025, 9, 2)) && !OnOrBefore(CivilDate(2025, 10, 2), CivilDate(2025, 9, 2))
  {
  }

  /** The copies MonthlyExample lists step from one to the next. */
  lemma MonthlyStepwise(seed: Event, s: seq<Event>)
    requires seed.date == CivilDate(2025, 7, 2)
    requires s == MonthlyList(seed)
    ensures Stepwise(s, Monthly, 1)
  {
    forall i | 0 <= i < |s| - 1
      ensures s[i + 1].date == NextOccurrence(Monthly, 1, s[i].date)
    {
      if i == 0 {
        assert s[i].date == CivilDate(2025, 7, 2) && s[i + 1].date == CivilDate(2025, 8, 2);
        MonthlySteps();
      } else {
        assert s[i].date == CivilDate(2025, 8, 2) && s[i + 1].date == CivilDate(2025, 9, 2);
        MonthlySteps();
      }
    }
  }

  /** The copies MonthlyExample lists are copies of the seed on or before its end date. */
  lemma MonthlyBounds(seed: Event, s: seq<Event>)
    requires seed.date == CivilDate(2025, 7, 2)
    requires s == MonthlyList(seed)
    ensures CopiesOf(s, seed)
    ensures forall i :: 0 <= i < |s| ==> OnOrBefore(s[i].date, CivilDate(2025, 9, 2))
  {
    assert seed.(date := seed.date) == seed;
  }

  /** One step after the last copy MonthlyExample lists passes its end date. */
  lemma MonthlyStops(seed: Event, s: seq<Event>)
    requires seed.date == CivilDate(2025, 7, 2)
    requires s == MonthlyList(seed)
    ensures StopsAt(s, Monthly, 1, CivilDate(2025, 9, 2))
  {
    assert s[|s| - 1].date == CivilDate(2025, 9, 2);
    MonthlySteps();
  }

  /**
    Every month from July 2nd to September 2nd, 2025: the end date itself is
    the third event.
   */
  lemma MonthlyExample(seed: Event)
    requires seed.date == CivilDate(2025, 7, 2)
    ensures Expand(seed, RepeatInfo(Monthly, 1, Some(CivilDate(2025, 9, 2)))) == Some(MonthlyList(seed))
  {
    var s := MonthlyList(seed);
    MonthlyStepwise(seed, s);
    MonthlyBounds(seed, s);
    MonthlyStops(seed, s);
    ExpandFromChain(seed, Monthly, 1, CivilDate(2025, 9, 2), s);
  }

  /** The seed followed by its copies dated 2026-07-03: the list YearlyExample expects. */
  function YearlyList(seed: Event): seq<Event> {
    [seed, seed.(date := CivilDate(2026, 7, 3))]
  }

  /** The steps of YearlyExample and where its end date falls. */
  lemma YearlySteps()
    ensures NextOccurrence(Yearly, 1, CivilDate(2025, 7, 3)) == CivilDate(2026, 7, 3)
    ensures NextOccurrence(Yearly, 1, CivilDate(2026, 7, 3)) == CivilDate(2027, 7, 3)
    ensures OnOrBefore(CivilDate(2026, 7, 3), CivilDate(2026, 7, 3)) && !OnOrBefore(CivilDate(2027, 7, 3), CivilDate(2026, 7, 3))
  {
  }

  /** The copies YearlyExample lists step from one to the next. */
  lemma YearlyStepwise(seed: Event, s: seq<Event>)
    requires seed.date == CivilDate(2025, 7, 3)
    requires s == YearlyList(seed)
    ensures Stepwise(s, Yearly, 1)
  {
    forall i | 0 <= i < |s| - 1
      ensures s[i + 1].date == NextOccurrence(Yearly, 1, s[i].date)
    {
      assert i == 0;
      assert s[i].date == CivilDate(2025, 7, 3) && s[i + 1].date == CivilDate(2026, 7, 3);
      YearlySteps();
    }
  }

  /** The copies YearlyExample lists are copies of the seed on or before its end date. */
  lemma YearlyBounds(seed: Event, s: seq<Event>)
    requires seed.date == CivilDate(2025, 7, 3)
    requires s == YearlyList(seed)
    ensures CopiesOf(s, seed)
    ensures forall i :: 0 <= i < |s| ==> OnOrBefore(s[i].date, CivilDate(2026, 7, 3))
  {
    assert seed.(date := seed.date) == seed;
  }

  /** One step after the last copy YearlyExample lists passes its end date. */
  lemma YearlyStops(seed: Event, s: seq<Event>)
    requires seed.date == CivilDate(2025, 7, 3)
    requires s == YearlyList(seed)
    ensures StopsAt(s, Yearly, 1, CivilDate(2026, 7, 3))
  {
    assert s[|s| - 1].date == CivilDate(2026, 7, 3);
    YearlySteps();
  }

  /**
    Every year from July 3rd, 2025 to July 3rd, 2026: two events.
   */
  lemma YearlyExample(seed: Event)
    requires seed.date == CivilDate(2025, 7, 3)
    ensures Expand(seed, RepeatInfo(Yearly, 1, Some(CivilDate(2026, 7, 3)))) == Some(YearlyList(seed))
  {
    var s := YearlyList(seed);
    YearlyStepwise(seed, s);
    YearlyBounds(seed, s);
    YearlyStops(seed, s);
    ExpandFromChain(seed, Yearly, 1, CivilDate(2026, 7, 3), s);
  }

  /** The seed followed by its copies dated 2025-03-03, 2025-04-03, 2025-05-03: the list MonthEndDrift expects. */
  function MonthEndDriftList(seed: Event): seq<Event> {
    [seed, seed.(date := CivilDate(2025, 3, 3)), seed.(date := CivilDate(2025, 4, 3)), seed.(date := CivilDate(2025, 5, 3))]
  }

  /** The steps of MonthEndDrift and where its end date falls. */
  lemma MonthEndDriftSteps()
    ensures NextOccurrence(Monthly, 1, CivilDate(2025, 1, 31)) == CivilDate(2025, 3, 3)
    ensures NextOccurrence(Monthly, 1, CivilDate(2025, 3, 3)) == CivilDate(2025, 4, 3)
    ensures NextOccurrence(Monthly, 1, CivilDate(2025, 4, 3)) == CivilDate(2025, 5, 3)
    ensures NextOccurrence(Monthly, 1, CivilDate(2025, 5, 3)) == CivilDate(2025, 6, 3)
    ensures OnOrBefore(CivilDate(2025, 5, 3), CivilDate(2025, 5, 31)) && !OnOrBefore(CivilDate(2025, 6, 3), CivilDate(2025, 5, 31))
  {
  }

  /** The copies MonthEndDrift lists step from one to the next. */
  lemma MonthEndDriftStepwise(seed: Event, s: seq<Event>)
    requires seed.date == CivilDate(2025, 1, 31)
    requires s == MonthEndDriftList(seed)
    ensures Stepwise(s, Monthly, 1)
  {
    forall i | 0 <= i < |s| - 1
      ensures s[i + 1].date == NextOccurrence(Monthly, 1, s[i].date)
    {
      if i == 0 {
        assert s[i].date == CivilDate(2025, 1, 31) && s[i + 1].date == CivilDate(2025, 3, 3);
        MonthEndDriftSteps();
      } else if i == 1 {
        assert s[i].date == CivilDate(2025, 3, 3) && s[i + 1].date == CivilDate(2025, 4, 3);
        MonthEndDriftSteps();
      } else {
        assert s[i].date == CivilDate(2025, 4, 3) && s[i + 1].date == CivilDate(2025, 5, 3);
        MonthEndDriftSteps();
      }
    }
  }

  /** The copies MonthEndDrift lists are copies of the seed on or before its end date. */
  lemma MonthEndDriftBounds(seed: Event, s: seq<Event>)
    requires seed.date == CivilDate(2025, 1, 31)
    requires s == MonthEndDriftList(seed)
    ensures CopiesOf(s, seed)
    ensures forall i :: 0 <= i < |s| ==> OnOrBefore(s[i].date, CivilDate(2025, 5, 31))
  {
    assert seed.(date := seed.date) == seed;
  }

  /** One step after the last copy MonthEndDrift lists passes its end date. */
  lemma MonthEndDriftStops(seed: Event, s: seq<Event>)
    requires seed.date == CivilDate(2025, 1, 31)
    requires s == MonthEndDriftList(seed)
    ensures StopsAt(s, Monthly, 1, CivilDate(2025, 5, 31))
  {
    assert s[|s| - 1].date == CivilDate(2025, 5, 3);
    MonthEndDriftSteps();
  }

  /**
    A seed on January 31st overflows February into March 3rd, and every later
    month keeps the drifted day 3: up to May 31st, 2025 the events fall on
    January 31st, March 3rd, April 3rd and May 3rd, not on March 31st and May 31st.
   */
  lemma MonthEndDrift(seed: Event)
    requires seed.date == CivilDate(2025, 1, 31)
    ensures Expand(seed, RepeatInfo(Monthly, 1, Some(CivilDate(2025, 5, 31)))) == Some(MonthEndDriftList(seed))
  {
    var s := MonthEndDriftList(seed);
    MonthEndDriftStepwise(seed, s);
    MonthEndDriftBounds(seed, s);
    MonthEndDriftStops(seed, s);
    ExpandFromChain(seed, Monthly, 1, CivilDate(2025, 5, 31), s);
  }

  /** The seed followed by its copies dated 2025-03-01, 2026-03-01, 2027-03-01, 2028-03-01: the list LeapDayDrift expects. */
  function LeapDayDriftList(seed: Event): seq<Event> {
    [seed, seed.(date := CivilDate(2025, 3, 1)), seed.(date := CivilDate(2026, 3, 1)), seed.(date := CivilDate(2027, 3, 1)), seed.(date := CivilDate(2028, 3, 1))]
  }

  /** The steps of LeapDayDrift and where its end date falls. */
  lemma LeapDayDriftSteps()
    ensures NextOccurrence(Yearly, 1, CivilDate(2024, 2, 29)) == CivilDate(2025, 3, 1)
    ensures NextOccurrence(Yearly, 1, CivilDate(2025, 3, 1)) == CivilDate(2026, 3, 1)
    ensures NextOccurrence(Yearly, 1, CivilDate(2026, 3, 1)) == CivilDate(2027, 3, 1)
    ensures NextOccurrence(Yearly, 1, CivilDate(2027, 3, 1)) == CivilDate(2028, 3, 1)
    ensures NextOccurrence(Yearly, 1, CivilDate(2028, 3, 1)) == CivilDate(2029, 3, 1)
    ensures OnOrBefore(CivilDate(2028, 3, 1), CivilDate(2028, 12, 31)) && !OnOrBefore(CivilDate(2029, 3, 1), CivilDate(2028, 12, 31))
  {
  }

  /** The copies LeapDayDrift lists step from one to the next. */
  lemma LeapDayDriftStepwise(seed: Event, s: seq<Event>)
    requires seed.date == CivilDate(2024, 2, 29)
    requires s == LeapDayDriftList(seed)
    ensures Stepwise(s, Yearly, 1)
  {
    forall i | 0 <= i < |s| - 1
      ensures s[i + 1].date == NextOccurrence(Yearly, 1, s[i].date)
    {
      if i == 0 {
        assert s[i].date == CivilDate(2024, 2, 29) && s[i + 1].date == CivilDate(2025, 3, 1);
        LeapDayDriftSteps();
      } else if i == 1 {
        assert s[i].date == CivilDate(2025, 3, 1) && s[i + 1].date == CivilDate(2026, 3, 1);
        LeapDayDriftSteps();
      } else if i == 2 {
        assert s[i].date == CivilDate(2026, 3, 1) && s[i + 1].date == CivilDate(2027, 3, 1);
        LeapDayDriftSteps();
      } else {
        assert s[i].date == CivilDate(2027, 3, 1) && s[i + 1].date == CivilDate(2028, 3, 1);
        LeapDayDriftSteps();
      }
    }
  }

  /** The copies LeapDayDrift lists are copies of the seed on or before its end date. */
  lemma LeapDayDriftBounds(seed: Event, s: seq<Event>)
    requires seed.date == CivilDate(2024, 2, 29)
    requires s == LeapDayDriftList(seed)
    ensures CopiesOf(s, seed)
    ensures forall i :: 0 <= i < |s| ==> OnOrBefore(s[i].date, CivilDate(2028, 12, 31))
  {
    assert seed.(date := seed.date) == seed;
  }

  /** One step after the last copy LeapDayDrift lists passes its end date. */
  lemma LeapDayDriftStops(seed: Event, s: seq<Event>)
    requires seed.date == CivilDate(2024, 2, 29)
    requires s == LeapDayDriftList(seed)
    ensures StopsAt(s, Yearly, 1, CivilDate(2028, 12, 31))
  {
    assert s[|s| - 1].date == CivilDate(2028, 3, 1);
    LeapDayDriftSteps();
  }

  /**
    A seed on February 29th, 2024 becomes March 1st in 2025 and stays there,
    so the leap year 2028 gets March 1st rather than February 29th.
   */
  lemma LeapDayDrift(seed: Event)
    requires seed.date == CivilDate(2024, 2, 29)
    ensures Expand(seed, RepeatInfo(Yearly, 1, Some(CivilDate(2028, 12, 31)))) == Some(LeapDayDriftList(seed))
  {
    var s := LeapDayDriftList(seed);
    LeapDayDriftStepwise(seed, s);
    LeapDayDriftBounds(seed, s);
    LeapDayDriftStops(seed, s);
    ExpandFromChain(seed, Yearly, 1, CivilDate(2028, 12, 31), s);
  }

  /**
    A seed dated after the end date gives the empty list, not undefined, and
    for any interval: the loop guard fails before the first step, so even an
    interval of 0 returns at once.
   */
  lemma ReversedRangeExample(seed: Event)
    requires seed.date == CivilDate(2025, 7, 10)
    ensures Expand(seed, RepeatInfo(Daily, 0, Some(CivilDate(2025, 7, 1)))) == Some([])
  {
  }

  /** Without an end date there is nothing to expand: the result is undefined. */
  lemma NoEndDateExample(seed: Event)
    ensures Expand(seed, RepeatInfo(Daily, 1, None)) == None
  {
  }

  /** A 'none' repeat is not expanded either, even with an end date. */
  lemma NoRepeatExample(seed: Event, end: Date)
    ensures Expand(seed, RepeatInfo(NoRepeat, 1, Some(end))) == None
  {
  }
}
