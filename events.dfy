/** Optional values: a missing id or a missing repeat end date. */
module Wrappers {
  datatype Option<+T> = None | Some(value: T)
}

/**
  The calendar's event record and its repeat configuration.  Only `date` is
  ever changed by the expander; the other fields are carried along unchanged.
 */
module Events {
  import opened Wrappers
  import opened Calendar

  /**
    The repeat types.  The form offers 'none', 'daily', 'weekly', 'monthly'
    and 'yearly'; `Unrecognized` stands for any other tag that reaches the
    expander from untyped data.
   */
  datatype RepeatType = NoRepeat | Daily | Weekly | Monthly | Yearly | Unrecognized(tag: string)
  {
    /** The four types the expander has a generator for. */
    predicate IsCalendarUnit() {
      Daily? || Weekly? || Monthly? || Yearly?
    }
  }

  /**
    A repeat configuration.  `endDate` is `None` when the form left it
    undefined, null or empty: all three are falsy to the expander's guard.
   */
  datatype RepeatInfo = RepeatInfo(kind: RepeatType, interval: int, endDate: Option<Date>)

  /** An event; `id` is `None` for an event not yet saved (the form's EventForm). */
  datatype Event = Event(
    id: Option<string>,
    title: string,
    date: Date,
    startTime: string,
    endTime: string,
    description: string,
    location: string,
    category: string,
    repeat: RepeatInfo,
    notificationTime: int
  )
}
