/**
 * The calendar event: Julian start and end days, start and end minutes
 * within those days, UTC milliseconds, colour, attendee status and the
 * display strings, with the predicates the day view lays out by.
 *
 * An `Event` object holds its fields as one `EventRecord` value; a setter is
 * an update of that value, and `copyTo` and `clone` move records between
 * objects.
 */
module Events {
  import opened Common

  /** `android.provider.CalendarContract.Attendees` status codes. */
  const ATTENDEE_STATUS_NONE := 0
  const ATTENDEE_STATUS_ACCEPTED := 1
  const ATTENDEE_STATUS_DECLINED := 2
  const ATTENDEE_STATUS_INVITED := 3
  const ATTENDEE_STATUS_TENTATIVE := 4

  /** `DateUtils.DAY_IN_MILLIS`. */
  const DAY_IN_MILLIS := 86_400_000

  const MINUTES_PER_DAY := 1440

  /**
   * The fields of an event. Days are Julian days, times are minutes since
   * midnight, millis are UTC milliseconds since the epoch; `None` is Java's
   * `null`.
   */
  datatype EventRecord = EventRecord(
    id: int, color: int, title: Option<string>, location: Option<string>,
    allDay: bool, organizer: Option<string>, guestsCanModify: bool,
    startDay: int, endDay: int, startTime: int, endTime: int,
    startMillis: int, endMillis: int, dStartTime: real, dEndTime: real,
    hasAlarm: bool, isRepeating: bool, selfAttendeeStatus: int)

  /**
   * The state the constructor leaves: id, colour, days, times and millis 0,
   * flags false, title and location null, status NONE; organizer,
   * guestsCanModify and the double times keep Java's defaults.
   */
  const NEW_EVENT: EventRecord :=
    EventRecord(0, 0, None, None, false, None, false, 0, 0, 0, 0, 0, 0, 0.0, 0.0,
                false, false, ATTENDEE_STATUS_NONE)

  class Event {
    var rec: EventRecord

    constructor()
      ensures rec == NEW_EVENT
    {
      rec := NEW_EVENT;
    }

    /**
     * A new event with this event's fields, except that its id stays at the
     * constructor's 0 and its double times at 0.0, which clone never sets.
     */
    method Clone() returns (e: Event)
      ensures fresh(e)
      ensures e.rec == rec.(id := 0, dStartTime := 0.0, dEndTime := 0.0)
      ensures e.rec.id == 0
    {
      e := new Event();
      e.rec := e.rec.(title := rec.title, color := rec.color, location := rec.location,
                      allDay := rec.allDay, startDay := rec.startDay, endDay := rec.endDay,
                      startTime := rec.startTime, endTime := rec.endTime,
                      startMillis := rec.startMillis, endMillis := rec.endMillis,
                      hasAlarm := rec.hasAlarm, isRepeating := rec.isRepeating,
                      selfAttendeeStatus := rec.selfAttendeeStatus,
                      organizer := rec.organizer, guestsCanModify := rec.guestsCanModify);
    }

    /**
     * Overwrites `dest` with every field of this event, including the id;
     * only the destination's double times are left as they were.
     */
    method CopyTo(dest: Event)
      modifies dest
      ensures dest.rec == old(rec).(dStartTime := old(dest.rec.dStartTime),
                                    dEndTime := old(dest.rec.dEndTime))
    {
      var r := rec;
      dest.rec := dest.rec.(id := r.id, title := r.title, color := r.color,
                            location := r.location, allDay := r.allDay,
                            startDay := r.startDay, endDay := r.endDay,
                            startTime := r.startTime, endTime := r.endTime,
                            startMillis := r.startMillis, endMillis := r.endMillis,
                            hasAlarm := r.hasAlarm, isRepeating := r.isRepeating,
                            selfAttendeeStatus := r.selfAttendeeStatus,
                            organizer := r.organizer, guestsCanModify := r.guestsCanModify);
    }
  }

  /**
   * Events that are all-day, or last at least 24 hours, are drawn in the
   * all-day strip; the `>=` admits Exchange all-day events.
   */
  predicate DrawAsAllday(e: EventRecord)
  {
    e.allDay || e.endMillis - e.startMillis >= DAY_IN_MILLIS
  }

  /**
   * Lengthening an event never takes it out of the all-day strip; a timed
   * event of exactly one day, as Exchange stores an all-day event, is drawn
   * there, and one a millisecond shorter is not.
   */
  lemma DrawAsAlldayThreshold(e: EventRecord, longer: EventRecord)
    ensures (DrawAsAllday(e) && longer.allDay == e.allDay
             && longer.endMillis - longer.startMillis >= e.endMillis - e.startMillis)
            ==> DrawAsAllday(longer)
    ensures e.endMillis - e.startMillis == DAY_IN_MILLIS ==> DrawAsAllday(e)
    ensures !e.allDay && e.endMillis - e.startMillis == DAY_IN_MILLIS - 1 ==> !DrawAsAllday(e)
  {
  }

  /**
   * Whether the event overlaps minutes `startMinute..endMinute` of Julian
   * day `julianDay`.
   */
  predicate Intersects(e: EventRecord, julianDay: int, startMinute: int, endMinute: int)
  {
    if e.endDay < julianDay then false
    else if e.startDay > julianDay then false
    else if e.endDay == julianDay && e.endTime < startMinute then false
    else if e.endDay == julianDay && e.endTime == startMinute
            && (e.startTime != e.endTime || e.startDay != e.endDay) then false
    else if e.startDay == julianDay && e.startTime > endMinute then false
    else true
  }

  /** Start of the event in minutes since Julian day 0. */
  function StartMinute(e: EventRecord): int { e.startDay * MINUTES_PER_DAY + e.startTime }

  /** End of the event in minutes since Julian day 0. */
  function EndMinute(e: EventRecord): int { e.endDay * MINUTES_PER_DAY + e.endTime }

  /** `s` ends with `suffix`, as `String.endsWith`. */
  predicate EndsWith(s: string, suffix: string)
  {
    |suffix| <= |s| && s[|s| - |suffix|..] == suffix
  }

  /**
   * The title, followed by ", " and the location unless the location is
   * null or already ends the title. A null title is dereferenced, so it is
   * excluded.
   */
  function TitleAndLocation(e: EventRecord): (text: string)
    requires e.title.Some?
  {
    var text := e.title.value;
    match e.location
    case None => text
    case Some(loc) => if EndsWith(text, loc) then text else text + ", " + loc
  }

  /**
   * `intersects` is the overlap of the event's span of absolute minutes with
   * the queried span of the day: the event must start no later than the
   * query's end, and end strictly after the query's start, or exactly at it
   * when the event has zero length. Minutes lie within a day.
   */
  lemma IntersectsIsOverlap(e: EventRecord, julianDay: int, startMinute: int, endMinute: int)
    requires 0 <= e.startTime < MINUTES_PER_DAY && 0 <= e.endTime < MINUTES_PER_DAY
    requires 0 <= startMinute < MINUTES_PER_DAY && 0 <= endMinute < MINUTES_PER_DAY
    ensures var q0 := julianDay * MINUTES_PER_DAY + startMinute;
            var q1 := julianDay * MINUTES_PER_DAY + endMinute;
            Intersects(e, julianDay, startMinute, endMinute)
            <==> (StartMinute(e) <= q1
                  && (EndMinute(e) > q0 || (EndMinute(e) == q0 && StartMinute(e) == EndMinute(e))))
  {
    DayOrder(e.startDay, e.startTime, julianDay, endMinute);
    DayOrder(e.endDay, e.endTime, julianDay, startMinute);
    DayOrder(e.startDay, e.startTime, e.endDay, e.endTime);
  }

  /** Minutes since Julian day 0 order (day, minute) pairs lexicographically. */
  lemma DayOrder(d1: int, m1: int, d2: int, m2: int)
    requires 0 <= m1 < MINUTES_PER_DAY && 0 <= m2 < MINUTES_PER_DAY
    ensures d1 < d2 ==> d1 * MINUTES_PER_DAY + m1 < d2 * MINUTES_PER_DAY + m2
    ensures d1 > d2 ==> d1 * MINUTES_PER_DAY + m1 > d2 * MINUTES_PER_DAY + m2
    ensures d1 * MINUTES_PER_DAY + m1 == d2 * MINUTES_PER_DAY + m2 <==> d1 == d2 && m1 == m2
  {
    if d1 < d2 {
      assert d1 * MINUTES_PER_DAY + MINUTES_PER_DAY <= d2 * MINUTES_PER_DAY;
    } else if d1 > d2 {
      assert d2 * MINUTES_PER_DAY + MINUTES_PER_DAY <= d1 * MINUTES_PER_DAY;
    }
  }

  /**
   * What `getTitleAndLocation` promises about its text: it starts with the
   * title, ends with the location when there is one, and is the bare title
   * exactly when nothing needs appending (otherwise title + ", " + location).
   */
  lemma TitleAndLocationShape(e: EventRecord)
    requires e.title.Some?
    ensures var t, text := e.title.value, TitleAndLocation(e);
            |t| <= |text| && text[..|t|] == t
            && (e.location.Some? ==> EndsWith(text, e.location.value))
            && (text == t <==> e.location.None? || EndsWith(t, e.location.value))
            && (text != t ==> text == t + ", " + e.location.value)
  {
    var t := e.title.value;
    var text := TitleAndLocation(e);
    if e.location.Some? && !EndsWith(t, e.location.value) {
      var loc := e.location.value;
      assert text == t + ", " + loc;
      assert text[|text| - |loc|..] == loc;
      assert |text| > |t|;
    }
  }
}
