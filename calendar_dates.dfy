/**
 * `CalendarDateUtils`: which day column of a week is Saturday or Sunday,
 * given the first day of the week, and how a `java.util.Calendar` week day
 * maps to the `android.text.format.Time` week day the view uses.
 */
module CalendarDates {
  /** `android.text.format.Time` week days: Sunday is 0. */
  const TIME_SUNDAY := 0
  const TIME_MONDAY := 1
  const TIME_SATURDAY := 6

  /** `java.util.Calendar` week days: Sunday is 1. */
  const CALENDAR_SUNDAY := 1
  const CALENDAR_MONDAY := 2
  const CALENDAR_SATURDAY := 7

  /** `isSaturday`: column `dayOfWeek` of a week starting on `firstDayOfWeek`. */
  predicate IsSaturday(dayOfWeek: int, firstDayOfWeek: int)
  {
    (firstDayOfWeek == TIME_SUNDAY && dayOfWeek == 6)
    || (firstDayOfWeek == TIME_MONDAY && dayOfWeek == 5)
    || (firstDayOfWeek == TIME_SATURDAY && dayOfWeek == 0)
  }

  /** `isSunday`. */
  predicate IsSunday(dayOfWeek: int, firstDayOfWeek: int)
  {
    (firstDayOfWeek == TIME_SUNDAY && dayOfWeek == 0)
    || (firstDayOfWeek == TIME_MONDAY && dayOfWeek == 6)
    || (firstDayOfWeek == TIME_SATURDAY && dayOfWeek == 1)
  }

  /** The week day shown in column `dayOfWeek` when the week starts on `firstDayOfWeek`. */
  function WeekDayOfColumn(dayOfWeek: int, firstDayOfWeek: int): (d: int)
    ensures 0 <= d < 7
  {
    (firstDayOfWeek + dayOfWeek) % 7
  }

  /** The week starts on one of the days the preference offers. */
  predicate SupportedStart(firstDayOfWeek: int)
  {
    firstDayOfWeek == TIME_SUNDAY || firstDayOfWeek == TIME_MONDAY || firstDayOfWeek == TIME_SATURDAY
  }

  /**
   * For a supported first day and a column of the week, the predicates
   * name the columns holding Saturday and Sunday; for any other first day
   * both are false.
   */
  lemma WeekendColumns(dayOfWeek: int, firstDayOfWeek: int)
    requires 0 <= dayOfWeek < 7
    ensures IsSaturday(dayOfWeek, firstDayOfWeek)
            <==> SupportedStart(firstDayOfWeek) && WeekDayOfColumn(dayOfWeek, firstDayOfWeek) == TIME_SATURDAY
    ensures IsSunday(dayOfWeek, firstDayOfWeek)
            <==> SupportedStart(firstDayOfWeek) && WeekDayOfColumn(dayOfWeek, firstDayOfWeek) == TIME_SUNDAY
  {
  }

  /** No column is both Saturday and Sunday. */
  lemma NotBothWeekendDays(dayOfWeek: int, firstDayOfWeek: int)
    ensures !(IsSaturday(dayOfWeek, firstDayOfWeek) && IsSunday(dayOfWeek, firstDayOfWeek))
    ensures !SupportedStart(firstDayOfWeek) ==>
              !IsSaturday(dayOfWeek, firstDayOfWeek) && !IsSunday(dayOfWeek, firstDayOfWeek)
  {
  }

  /**
   * The tail of `getFirstDayOfWeek`: a `Calendar` start day of Saturday or
   * Monday becomes the `Time` day of the same name; anything else becomes
   * Sunday.
   */
  function FirstDayOfWeek(startDay: int): (d: int)
    ensures SupportedStart(d)
    ensures startDay == CALENDAR_SUNDAY || startDay == CALENDAR_MONDAY || startDay == CALENDAR_SATURDAY ==>
              d == startDay - 1
    ensures d != TIME_SUNDAY ==> d == startDay - 1
  {
    if startDay == CALENDAR_SATURDAY then TIME_SATURDAY
    else if startDay == CALENDAR_MONDAY then TIME_MONDAY
    else TIME_SUNDAY
  }
}
