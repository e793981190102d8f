/**
 * The integer core of `DayView`: the day grid, the first visible hour, the
 * selected day and hour, the per-day all-day counts, and the neighbour
 * links between the selected events. The view's Android state (canvas,
 * animators, popups, scroller) is not part of this model; resource values
 * the code reads (hour gap, day header height) are fields.
 */
module DayViews {
  import opened Common
  import opened Events
  import opened Layouts
  import opened Neighbors
  import opened EventRelations

  /** The selection box's modes. */
  const SELECTION_HIDDEN := 0
  const SELECTION_PRESSED := 1
  const SELECTION_SELECTED := 2
  const SELECTION_LONGPRESS := 3

  const INVALID_EVENT_ID := -1

  /** Pixels between two day columns. */
  const DAY_GAP := 1

  /**
   * How many days `adjustToBeginningOfWeek` steps back from week day
   * `weekDay` to reach the first day of the week.
   */
  function WeekStartDiff(weekDay: int, firstDayOfWeek: int): (diff: int)
  {
    var diff := weekDay - firstDayOfWeek;
    if diff < 0 then diff + 7 else diff
  }

  /**
   * For week days in 0..6, stepping back `diff` days lands on the first day
   * of the week, and never more than six days back.
   */
  lemma WeekStartDiffSpec(weekDay: int, firstDayOfWeek: int)
    requires 0 <= weekDay < 7 && 0 <= firstDayOfWeek < 7
    ensures var diff := WeekStartDiff(weekDay, firstDayOfWeek);
            0 <= diff < 7 && (weekDay - diff) % 7 == firstDayOfWeek
            && (diff == 0 <==> weekDay == firstDayOfWeek)
  {
  }

  /** The scroll position and selection fields an hour adjustment may change. */
  datatype HourView = HourView(firstHour: int, viewStartY: int, prev: EventLayout?, allday: bool)

  /** An hour brought into 0..23. */
  function ClampHour(h0: int): (h: int)
    ensures 0 <= h <= 23
    ensures 0 <= h0 <= 23 ==> h == h0
    ensures h0 < 0 ==> h == 0
    ensures h0 > 23 ==> h == 23
  {
    if h0 < 0 then 0 else if h0 > 23 then 23 else h0
  }

  class DayView {
    var selectionMode: int
    var scrolling: bool
    var selectedEvent: EventLayout?
    var selectedEvents: seq<EventLayout>
    var prevSelectedEvent: EventLayout?
    var prevBox: Rect
    var selectionDay: int
    var selectionHour: int
    var selectionAllday: bool
    var computeSelectedEvents: bool
    var lastPopupEventID: int

    var firstJulianDay: int
    var lastJulianDay: int
    var numDays: int

    var viewWidth: int
    var hoursWidth: int
    var cellWidth: int
    var cellHeight: int
    var hourGap: int
    var dayHeaderHeight: int
    var firstCell: int
    var firstHour: int
    var firstHourOffset: int
    var numHours: int
    var viewStartY: int
    var maxViewStartY: int

    var events: seq<EventLayout>
    var maxAlldayEvents: int
    var hasAllDayEvent: array<bool>
    var earliestStartHour: array<int>

    /**
     * The shape the view keeps: at least one day, the last day `numDays - 1`
     * after the first, positive cell and hour pitches, and one entry per
     * day in the per-day arrays.
     */
    predicate Grid()
      reads this
    {
      numDays > 0 && lastJulianDay == firstJulianDay + numDays - 1
      && cellHeight + hourGap > 0 && cellWidth + DAY_GAP > 0
      && hasAllDayEvent.Length == numDays && earliestStartHour.Length == numDays
    }

    /** The x position of the left side of day `day` (0 is the first shown day). */
    function DayLeftPosition(day: int): int
      reads this
      requires numDays > 0
    {
      JavaDiv(day * (viewWidth - hoursWidth), numDays) + hoursWidth
    }

    /**
     * The grid starts at the hours column and ends at the view's width, and
     * day edges move right day by day.
     */
    lemma DayLeftPositionSpec(d1: int, d2: int)
      requires numDays > 0 && viewWidth >= hoursWidth && 0 <= d1 <= d2
      ensures DayLeftPosition(0) == hoursWidth && DayLeftPosition(numDays) == viewWidth
      ensures DayLeftPosition(d1) <= DayLeftPosition(d2)
    {
      var w := viewWidth - hoursWidth;
      MulDivCancel(w, numDays);
      MulMono(0, d1, w);
      MulMono(d1, d2, w);
      DivMono(d1 * w, d2 * w, numDays);
    }

    /** `computeDayLeftEdge`: the left edge of every day and of the day after the last. */
    method DayLeftEdge() returns (dayStops: array<int>)
      requires numDays > 0
      ensures fresh(dayStops) && dayStops.Length == numDays + 1
      ensures forall i :: 0 <= i < dayStops.Length ==> dayStops[i] == DayLeftPosition(i)
    {
      dayStops := new int[numDays + 1];
      var i := 0;
      while i < dayStops.Length
        invariant 0 <= i <= dayStops.Length
        invariant forall k :: 0 <= k < i ==> dayStops[k] == DayLeftPosition(k)
      {
        dayStops[i] := DayLeftPosition(i);
        i := i + 1;
      }
    }

    /** `getCurrentSelectionPosition`: the box of the selected hour of the selected day. */
    function CurrentSelectionPosition(): (box: Rect)
      reads this
      requires numDays > 0
    {
      var top := selectionHour * (cellHeight + hourGap);
      var daynum := selectionDay - firstJulianDay;
      Rect(DayLeftPosition(daynum) + 1, top, DayLeftPosition(daynum + 1), top + cellHeight + hourGap)
    }

    /**
     * `computeFirstHour`: the first hour line at or below the top of the
     * scrolled area, and how far below the top it lies.
     */
    method ComputeFirstHour()
      requires cellHeight + hourGap > 0 && viewStartY >= 0
      modifies this`firstHour, this`firstHourOffset
      ensures firstHour == JavaDiv(viewStartY + cellHeight + hourGap - 1, cellHeight + hourGap)
      ensures firstHourOffset == firstHour * (cellHeight + hourGap) - viewStartY
      ensures (firstHour - 1) * (cellHeight + hourGap) < viewStartY <= firstHour * (cellHeight + hourGap)
      ensures 0 <= firstHourOffset < cellHeight + hourGap
    {
      var pitch := cellHeight + hourGap;
      firstHour := JavaDiv(viewStartY + pitch - 1, pitch);
      firstHourOffset := firstHour * pitch - viewStartY;
    }

    /**
     * `initFirstHour`: start the visible hours a fifth of a screen above the
     * selected hour, kept within the day.
     */
    method InitFirstHour()
      requires numHours >= 0
      modifies this`firstHour
      ensures var want := selectionHour - JavaDiv(numHours, 5);
              firstHour == if want < 0 then 0 else if want + numHours > 24 then 24 - numHours else want
      ensures numHours <= 24 ==> 0 <= firstHour && firstHour + numHours <= 24
    {
      firstHour := selectionHour - JavaDiv(numHours, 5);
      if firstHour < 0 {
        firstHour := 0;
      } else if firstHour + numHours > 24 {
        firstHour := 24 - numHours;
      }
    }

    /** `setSelectedHour`. */
    method SetSelectedHour(h: int)
      modifies this`selectionHour
      ensures selectionHour == h
    {
      selectionHour := h;
    }

    /** The fields `adjustHourSelection` may change, besides the selected hour. */
    function HourViewOf(): HourView
      reads this
    {
      HourView(firstHour, viewStartY, prevSelectedEvent, selectionAllday)
    }

    /**
     * The first step of `adjustHourSelection`: the selected hour `h0` is
     * brought back into 0..23, and stepping above midnight with all-day
     * events shown moves the selection to the all-day area.
     */
    function Clamped(v0: HourView, h0: int): (v: HourView)
      reads this
      ensures v.firstHour == v0.firstHour && v.viewStartY == v0.viewStartY
    {
      var toAllday := h0 < 0 && maxAlldayEvents > 0;
      v0.(prev := if toAllday then null else v0.prev, allday := toAllday || v0.allday)
    }

    /**
     * The second step, for a selected hour `h` in 0..23 and the fields it
     * changes at `v`: a selection within one hour of the top either moves
     * to the all-day area, when the day's earliest event starts below it
     * and the view shows hours 1..7 at the top, or scrolls up by one hour;
     * one within three hours of the bottom scrolls down by one.
     */
    predicate ScrolledTo(v: HourView, h: int)
      reads this, earliestStartHour
    {
      var daynum := selectionDay - firstJulianDay;
      if h < v.firstHour + 1 && maxAlldayEvents > 0
         && 0 <= daynum < earliestStartHour.Length && earliestStartHour[daynum] > h
         && 0 < v.firstHour < 8 then
        selectionHour == v.firstHour + 1 && prevSelectedEvent == null && selectionAllday
        && firstHour == v.firstHour && viewStartY == v.viewStartY
      else
        selectionHour == h && prevSelectedEvent == v.prev && selectionAllday == v.allday
        && (if h < v.firstHour + 1 && v.firstHour > 0 then
              firstHour == v.firstHour - 1
              && viewStartY == Max(v.viewStartY - (cellHeight + hourGap), 0)
            else if h > v.firstHour + numHours - 3 && v.firstHour < 24 - numHours then
              firstHour == v.firstHour + 1
              && viewStartY == (if v.viewStartY + (cellHeight + hourGap) > maxViewStartY
                                then maxViewStartY else v.viewStartY + (cellHeight + hourGap))
            else
              firstHour == v.firstHour
              && viewStartY == (if h > v.firstHour + numHours - 3 && v.firstHour == 24 - numHours
                                   && firstHourOffset > 0
                                then maxViewStartY else v.viewStartY))
    }

    /**
     * What `adjustHourSelection` leaves when the selected hour stood at `h0`
     * and the fields it changes were `v0`: the two steps in turn.
     */
    predicate HourAdjusted(v0: HourView, h0: int)
      reads this, earliestStartHour
    {
      ScrolledTo(Clamped(v0, h0), ClampHour(h0))
    }

    /** `adjustHourSelection`: the selected hour ends in 0..23. */
    method AdjustHourSelection()
      requires maxAlldayEvents > 0 ==> 0 <= selectionDay - firstJulianDay < earliestStartHour.Length
      modifies this`selectionHour, this`prevSelectedEvent, this`selectionAllday,
               this`firstHour, this`viewStartY
      ensures 0 <= selectionHour <= 23
      ensures HourAdjusted(old(HourViewOf()), old(selectionHour))
    {
      ClampSelectedHour();
      ScrollToSelectedHour();
    }

    /** The clamping half of `adjustHourSelection`. */
    method ClampSelectedHour()
      modifies this`selectionHour, this`prevSelectedEvent, this`selectionAllday
      ensures selectionHour == ClampHour(old(selectionHour))
      ensures HourViewOf() == Clamped(old(HourViewOf()), old(selectionHour))
    {
      if selectionHour < 0 {
        SetSelectedHour(0);
        if maxAlldayEvents > 0 {
          prevSelectedEvent := null;
          selectionAllday := true;
        }
      }
      if selectionHour > 23 {
        SetSelectedHour(23);
      }
    }

    /** The scrolling half of `adjustHourSelection`, for a selected hour in 0..23. */
    method ScrollToSelectedHour()
      requires 0 <= selectionHour <= 23
      requires maxAlldayEvents > 0 ==> 0 <= selectionDay - firstJulianDay < earliestStartHour.Length
      modifies this`selectionHour, this`prevSelectedEvent, this`selectionAllday,
               this`firstHour, this`viewStartY
      ensures 0 <= selectionHour <= 23
      ensures ScrolledTo(old(HourViewOf()), old(selectionHour))
    {
      if selectionHour < firstHour + 1 {
        var daynum := selectionDay - firstJulianDay;
        if maxAlldayEvents > 0 && earliestStartHour[daynum] > selectionHour
           && firstHour > 0 && firstHour < 8 {
          prevSelectedEvent := null;
          selectionAllday := true;
          SetSelectedHour(firstHour + 1);
          return;
        }
        if firstHour > 0 {
          firstHour := firstHour - 1;
          viewStartY := viewStartY - (cellHeight + hourGap);
          if viewStartY < 0 {
            viewStartY := 0;
          }
          return;
        }
      }
      if selectionHour > firstHour + numHours - 3 {
        if firstHour < 24 - numHours {
          firstHour := firstHour + 1;
          viewStartY := viewStartY + (cellHeight + hourGap);
          if viewStartY > maxViewStartY {
            viewStartY := maxViewStartY;
          }
          return;
        } else if firstHour == 24 - numHours && firstHourOffset > 0 {
          viewStartY := maxViewStartY;
        }
      }
    }

    /** `increaseSelectedHour`: `n` hours later, adjusted, with the selected events cleared. */
    method IncreaseSelectedHour(n: int)
      requires maxAlldayEvents > 0 ==> 0 <= selectionDay - firstJulianDay < earliestStartHour.Length
      modifies this`selectionHour, this`prevSelectedEvent, this`selectionAllday,
               this`firstHour, this`viewStartY, this`selectedEvents, this`computeSelectedEvents
      ensures 0 <= selectionHour <= 23 && HourAdjusted(old(HourViewOf()), old(selectionHour) + n)
      ensures selectedEvents == [] && computeSelectedEvents
    {
      SetSelectedHour(selectionHour + n);
      AdjustHourSelection();
      selectedEvents := [];
      computeSelectedEvents := true;
    }

    /** `decreaseSelectedHour`: `n` hours earlier, adjusted, with the selected events cleared. */
    method DecreaseSelectedHour(n: int)
      requires maxAlldayEvents > 0 ==> 0 <= selectionDay - firstJulianDay < earliestStartHour.Length
      modifies this`selectionHour, this`prevSelectedEvent, this`selectionAllday,
               this`firstHour, this`viewStartY, this`selectedEvents, this`computeSelectedEvents
      ensures 0 <= selectionHour <= 23 && HourAdjusted(old(HourViewOf()), old(selectionHour) - n)
      ensures selectedEvents == [] && computeSelectedEvents
    {
      SetSelectedHour(selectionHour - n);
      AdjustHourSelection();
      selectedEvents := [];
      computeSelectedEvents := true;
    }

    /**
     * `resetSelectedHour`, after a scroll: a selected hour above the second
     * visible hour or below the third from the bottom is moved to that
     * limit and the selected events are dropped; an hour between the limits
     * stays as it is.
     */
    method ResetSelectedHour()
      modifies this`selectionHour, this`selectedEvent, this`selectedEvents, this`computeSelectedEvents
      ensures var lo, hi := firstHour + 1, firstHour + numHours - 3;
              if old(selectionHour) < lo || old(selectionHour) > hi then
                selectionHour == (if old(selectionHour) < lo then lo else hi)
                && selectedEvent == null && selectedEvents == [] && computeSelectedEvents
              else
                selectionHour == old(selectionHour) && selectedEvent == old(selectedEvent)
                && selectedEvents == old(selectedEvents) && computeSelectedEvents == old(computeSelectedEvents)
      ensures numHours >= 4 ==> firstHour + 1 <= selectionHour <= firstHour + numHours - 3
    {
      if selectionHour < firstHour + 1 {
        SetSelectedHour(firstHour + 1);
        selectedEvent := null;
        selectedEvents := [];
        computeSelectedEvents := true;
      } else if selectionHour > firstHour + numHours - 3 {
        SetSelectedHour(firstHour + numHours - 3);
        selectedEvent := null;
        selectedEvents := [];
        computeSelectedEvents := true;
      }
    }

    /**
     * The state `switchToDay` leaves: the day is selected and the selected
     * events are dropped to be computed again. `switchesView` tells whether
     * the day lies outside the visible days, in which case the source moves
     * to a neighbouring view showing it.
     */
    method SwitchToDay(day: int) returns (switchesView: bool)
      modifies this`selectionDay, this`selectedEvents, this`computeSelectedEvents
      ensures switchesView == (day < firstJulianDay || day > lastJulianDay)
      ensures selectionDay == day && selectedEvents == [] && computeSelectedEvents
    {
      switchesView := day < firstJulianDay || day > lastJulianDay;
      if !switchesView && selectionDay != day {
        selectionDay := day;
      }
      selectionDay := day;
      selectedEvents := [];
      computeSelectedEvents := true;
    }

    /**
     * The day `setSelectionFromPosition` selects for x position `x`: the
     * day column holding `x`, a position left of the hours column counting
     * as the first day and one past the last column as the last day.
     */
    function DayAtPosition(x: int): (day: int)
      reads this
      requires cellWidth + DAY_GAP > 0
      ensures numDays > 0 ==> firstJulianDay <= day <= firstJulianDay + numDays - 1
      ensures numDays > 0 && x <= hoursWidth ==> day == firstJulianDay
      ensures var col, pitch := day - firstJulianDay, cellWidth + DAY_GAP;
              hoursWidth <= x && col < numDays - 1
              ==> hoursWidth + col * pitch <= x < hoursWidth + (col + 1) * pitch
    {
      var cx := if x < hoursWidth then hoursWidth else x;
      var pitch := cellWidth + DAY_GAP;
      var day := JavaDiv(cx - hoursWidth, pitch);
      assert (day + 1) * pitch == day * pitch + pitch;
      (if day >= numDays then numDays - 1 else day) + firstJulianDay
    }

    /**
     * The hour `setSelectionFromPosition` selects for y position `y` below
     * the day header: the first visible hour in the all-day area, the hour
     * before it in the partly visible slot at the top of the grid, and
     * otherwise the hour whose slot holds `y`.
     */
    function HourAtPosition(y: int): (hour: int)
      reads this
      requires cellHeight + hourGap > 0
      ensures y < firstCell ==> hour == firstHour
      ensures firstCell <= y < firstCell + firstHourOffset ==> hour == firstHour - 1
      ensures var top := firstCell + firstHourOffset + (hour - firstHour) * (cellHeight + hourGap);
              y >= firstCell && y >= firstCell + firstHourOffset ==> hour >= firstHour && top <= y < top + cellHeight + hourGap
    {
      if y < firstCell then firstHour
      else
        var adjustedY := y - firstCell;
        if adjustedY < firstHourOffset then firstHour - 1
        else firstHour + JavaDiv(adjustedY - firstHourOffset, cellHeight + hourGap)
    }

    /**
     * The day and hour part of `setSelectionFromPosition`. A position in the
     * day header is invalid: only the day is selected. Otherwise day, hour
     * and all-day flag follow the position, unless `keepOldSelection` asks
     * for them to be restored. The early return for the header skips that
     * restoring, so the day then changes even with `keepOldSelection`.
     */
    method SetSelectionFromPosition(x: int, y: int, keepOldSelection: bool) returns (valid: bool)
      requires cellWidth + DAY_GAP > 0 && cellHeight + hourGap > 0
      modifies this`selectionDay, this`selectionHour, this`selectionAllday
      ensures valid == (y >= dayHeaderHeight)
      ensures !valid ==> selectionDay == DayAtPosition(x) && selectionHour == old(selectionHour)
                         && selectionAllday == old(selectionAllday)
      ensures valid && keepOldSelection ==>
                selectionDay == old(selectionDay) && selectionHour == old(selectionHour)
                && selectionAllday == old(selectionAllday)
      ensures valid && !keepOldSelection ==>
                selectionDay == DayAtPosition(x) && selectionHour == HourAtPosition(y)
                && selectionAllday == (y < firstCell)
    {
      var savedDay, savedHour, savedAllDay := 0, 0, false;
      if keepOldSelection {
        savedDay, savedHour, savedAllDay := selectionDay, selectionHour, selectionAllday;
      }
      var cx := x;
      if cx < hoursWidth {
        cx := hoursWidth;
      }
      var day := JavaDiv(cx - hoursWidth, cellWidth + DAY_GAP);
      if day >= numDays {
        day := numDays - 1;
      }
      day := day + firstJulianDay;
      selectionDay := day;
      if y < dayHeaderHeight {
        return false;
      }
      SetSelectedHour(firstHour);
      if y < firstCell {
        selectionAllday := true;
      } else {
        var adjustedY := y - firstCell;
        if adjustedY < firstHourOffset {
          SetSelectedHour(selectionHour - 1);
        } else {
          SetSelectedHour(selectionHour + JavaDiv(adjustedY - firstHourOffset, cellHeight + hourGap));
        }
        selectionAllday := false;
      }
      if keepOldSelection {
        selectionDay, selectionHour, selectionAllday := savedDay, savedHour, savedAllDay;
      }
      return true;
    }

    /**
     * The end of `findSelectedEvent`: once an event is selected, the selected
     * day and hour are moved into the event.
     */
    method KeepSelectionInEvent()
      requires selectedEvent != null
      modifies this`selectionDay, this`selectionHour
      ensures (selectionDay, selectionHour)
              == ClampToEvent(old(selectionDay), old(selectionHour), selectedEvent.event.rec)
    {
      var e := selectedEvent.event.rec;
      if selectionDay < e.startDay {
        selectionDay := e.startDay;
      } else if selectionDay > e.endDay {
        selectionDay := e.endDay;
      }
      var startHour := JavaDiv(e.startTime, 60);
      var endHour;
      if e.startTime < e.endTime {
        endHour := JavaDiv(e.endTime - 1, 60);
      } else {
        endHour := JavaDiv(e.endTime, 60);
      }
      if selectionHour < startHour && selectionDay == e.startDay {
        SetSelectedHour(startHour);
      } else if selectionHour > endHour && selectionDay == e.endDay {
        SetSelectedHour(endHour);
      }
    }

    /**
     * `computeEventRelations` without the all-day heights: the largest
     * number of all-day events on any visible day, the days holding an
     * all-day event, and each day's earliest hour a timed event starts or
     * ends at, lowered from its value before the call.
     */
    method ComputeEventRelations()
      requires numDays >= 0 && lastJulianDay == firstJulianDay + numDays - 1
      requires hasAllDayEvent.Length == numDays && earliestStartHour.Length == numDays
      modifies this`maxAlldayEvents, hasAllDayEvent, earliestStartHour
      ensures maxAlldayEvents == MaxOf(AllDayCounts(old(Recs(events)), firstJulianDay, lastJulianDay, numDays))
      ensures HasAfter(hasAllDayEvent[..], old(hasAllDayEvent[..]), old(Recs(events)),
                       firstJulianDay, lastJulianDay, |events|)
      ensures EarliestAfter(earliestStartHour[..], old(earliestStartHour[..]), old(Recs(events)),
                            firstJulianDay, lastJulianDay, |events|)
    {
      ghost var recs := Recs(events);
      var has, hours := hasAllDayEvent, earliestStartHour;
      ghost var has0, hours0 := has[..], hours[..];
      var first, last := firstJulianDay, lastJulianDay;
      var maxAll := 0;
      var counts := new int[last - first + 1](_ => 0);
      MaxOfSpec(counts[..]);
      var ii := 0;
      while ii < |events|
        invariant 0 <= ii <= |events| && counts != hours
        invariant CountsAfter(counts[..], recs, first, last, ii) && maxAll == MaxOf(counts[..])
        invariant HasAfter(has[..], has0, recs, first, last, ii)
        invariant EarliestAfter(hours[..], hours0, recs, first, last, ii)
      {
        var event := events[ii].event.rec;
        assert event == recs[ii];
        maxAll := RelateNext(counts, has, hours, first, last, event, recs, ii, has0, hours0, maxAll);
        ii := ii + 1;
      }
      maxAlldayEvents := maxAll;
      assert counts[..] == AllDayCounts(recs, first, last, numDays);
    }

    /** The previously selected event's rectangle, if there is one. */
    function PrevSelectedRect(): Option<Rect>
      reads this, prevSelectedEvent
    {
      if prevSelectedEvent == null then None
      else Some(Rect(prevSelectedEvent.left, prevSelectedEvent.top,
                     prevSelectedEvent.right, prevSelectedEvent.bottom))
    }

    /**
     * `computeNeighbors`: with selected events and none of them chosen yet,
     * links every selected event to its nearest neighbour in each of the
     * four directions and selects the event nearest to where the previous
     * selection came from. The previous selection is dropped when it no
     * longer meets the previous selection box.
     */
    method ComputeNeighbors()
      requires numDays > 0 && Distinct(selectedEvents)
      requires NoNullTie(Geoms(selectedEvents), CurrentSelectionPosition())
      modifies this`selectedEvent, this`prevSelectedEvent,
               selectedEvents`nextUp, selectedEvents`nextDown, selectedEvents`nextLeft, selectedEvents`nextRight
      ensures |selectedEvents| == 0 || old(selectedEvent) != null ==>
                selectedEvent == old(selectedEvent) && prevSelectedEvent == old(prevSelectedEvent)
                && forall l :: l in selectedEvents ==>
                     l.nextUp == old(l.nextUp) && l.nextDown == old(l.nextDown)
                     && l.nextLeft == old(l.nextLeft) && l.nextRight == old(l.nextRight)
      ensures |selectedEvents| > 0 && old(selectedEvent) == null ==>
                var gs, box := old(Geoms(selectedEvents)), old(CurrentSelectionPosition());
                var p := PrevAreaOf(old(PrevSelectedRect()), prevBox);
                (forall ii :: 0 <= ii < |selectedEvents| ==> NeighborLinked(selectedEvents, gs, box, ii))
                && selectedEvent == selectedEvents[StartEvent(gs, box, p.area, ArrivalFrom(p.area, box))]
                && prevSelectedEvent == (if p.kept then old(prevSelectedEvent) else null)
    {
      var len := |selectedEvents|;
      if len == 0 || selectedEvent != null {
        return;
      }
      var gs := Geoms(selectedEvents);
      var box := CurrentSelectionPosition();
      var p := PrevAreaOf(PrevSelectedRect(), prevBox);
      ClearLinks(selectedEvents);
      if !p.kept {
        prevSelectedEvent := null;
      }
      var startAt := LinkNeighbors(selectedEvents, gs, box, p.area, ArrivalFrom(p.area, box));
      selectedEvent := selectedEvents[startAt];
    }

    /** The column of the previously selected event, when it is drawn as all-day, else -1. */
    function AllDayStartPosition(): int
      reads this, prevSelectedEvent, if prevSelectedEvent == null then {} else {prevSelectedEvent.event}
    {
      if prevSelectedEvent != null && DrawAsAllday(prevSelectedEvent.event.rec) then prevSelectedEvent.column
      else -1
    }

    /**
     * `computeAllDayNeighbors`: with selected all-day events and none of
     * them chosen yet, links every event up to an event in the column above
     * and down to one in the column below, clears its left and right links,
     * and selects the event in the previously selected all-day column, else
     * the one in the highest column.
     */
    method ComputeAllDayNeighbors()
      requires Distinct(selectedEvents)
      modifies this`selectedEvent,
               selectedEvents`nextUp, selectedEvents`nextDown, selectedEvents`nextLeft, selectedEvents`nextRight
      ensures |selectedEvents| == 0 || old(selectedEvent) != null ==>
                selectedEvent == old(selectedEvent)
                && forall l :: l in selectedEvents ==>
                     l.nextUp == old(l.nextUp) && l.nextDown == old(l.nextDown)
                     && l.nextLeft == old(l.nextLeft) && l.nextRight == old(l.nextRight)
      ensures |selectedEvents| > 0 && old(selectedEvent) == null ==>
                var cols := old(Columns(selectedEvents));
                (forall ii :: 0 <= ii < |selectedEvents| ==>
                   AllDayLinked(selectedEvents, cols, ii)
                   && selectedEvents[ii].nextLeft == null && selectedEvents[ii].nextRight == null)
                && selectedEvent == Link(selectedEvents, AllDaySelection(cols, old(AllDayStartPosition())))
    {
      var len := |selectedEvents|;
      if len == 0 || selectedEvent != null {
        return;
      }
      var cols := Columns(selectedEvents);
      var startPosition := AllDayStartPosition();
      ClearLinks(selectedEvents);
      var startEvent := LinkAllDayNeighbors(selectedEvents, cols, startPosition);
      selectedEvent := Link(selectedEvents, startEvent);
    }
  }

  /**
   * What the neighbour search reads of each selected layout: its rectangle
   * and its event's start and end minute.
   */
  function Geoms(ls: seq<EventLayout>): (gs: seq<Geom>)
    reads set l | l in ls, set l | l in ls :: l.event
    ensures |gs| == |ls|
  {
    seq(|ls|, i reads set l | l in ls, set l | l in ls :: l.event requires 0 <= i < |ls| =>
      Geom(ls[i].left, ls[i].right, ls[i].top, ls[i].bottom, ls[i].event.rec.startTime, ls[i].event.rec.endTime))
  }

  /** The layout a neighbour position names, `null` for none. */
  function Link(ls: seq<EventLayout>, at: Option<nat>): (l: EventLayout?)
    ensures at.Some? && at.value < |ls| ==> l == ls[at.value]
    ensures at.None? ==> l == null
  {
    match at
    case None => null
    case Some(j) => if j < |ls| then ls[j] else null
  }

  /** The first loop of both neighbour computations: every link of every listed layout cleared. */
  method ClearLinks(ls: seq<EventLayout>)
    modifies ls`nextUp, ls`nextDown, ls`nextLeft, ls`nextRight
    ensures forall l :: l in ls ==> l.nextUp == null && l.nextDown == null && l.nextLeft == null && l.nextRight == null
  {
    var ii := 0;
    while ii < |ls|
      invariant 0 <= ii <= |ls|
      invariant forall k :: 0 <= k < ii ==>
                  ls[k].nextUp == null && ls[k].nextDown == null && ls[k].nextLeft == null && ls[k].nextRight == null
    {
      var ev := ls[ii];
      ev.nextUp, ev.nextDown, ev.nextLeft, ev.nextRight := null, null, null, null;
      ii := ii + 1;
    }
  }

  /** Layout `k` links to its nearest neighbour in each direction. */
  predicate NeighborLinked(ls: seq<EventLayout>, gs: seq<Geom>, box: Rect, k: nat)
    requires k < |ls| == |gs|
    reads ls[k]
  {
    ls[k].nextUp == Link(ls, Neighbor(gs, box, k, Up))
    && ls[k].nextDown == Link(ls, Neighbor(gs, box, k, Down))
    && ls[k].nextLeft == Link(ls, Neighbor(gs, box, k, Left))
    && ls[k].nextRight == Link(ls, Neighbor(gs, box, k, Right))
  }

  /**
   * The main loop of `computeNeighbors` over the layouts `ls`, whose
   * geometry is `gs`: every layout gets its four nearest neighbours, and
   * the start event is chosen by its distances from the previous area
   * `prev` that the selection arrives from.
   */
  method LinkNeighbors(ls: seq<EventLayout>, gs: seq<Geom>, box: Rect, prev: Rect, arrival: Arrival)
    returns (startAt: nat)
    requires |ls| == |gs| > 0 && Distinct(ls) && NoNullTie(gs, box)
    modifies ls`nextUp, ls`nextDown, ls`nextLeft, ls`nextRight
    ensures startAt == StartEvent(gs, box, prev, arrival)
    ensures forall k :: 0 <= k < |ls| ==> NeighborLinked(ls, gs, box, k)
  {
    ghost var ds := StartPairs(gs, box, prev, arrival);
    var startEventDistance1, startEventDistance2 := START_SENTINEL, START_SENTINEL;
    startAt := 0;
    var ii := 0;
    while ii < |ls|
      invariant 0 <= ii <= |ls|
      invariant Start(startAt, startEventDistance1, startEventDistance2) == StartScan(ds, ii)
      invariant forall k :: 0 <= k < ii ==> NeighborLinked(ls, gs, box, k)
    {
      var distance := StartDistances(gs[ii], box, prev, arrival);
      startAt, startEventDistance1, startEventDistance2 :=
        CloserStart(ds, ii, distance, startAt, startEventDistance1, startEventDistance2);
      SetNeighborLinks(ls, gs, box, ii, ls[ii]);
      ii := ii + 1;
    }
  }

  /** Takes position `ii` as the start event when its distances are lexicographically smaller. */
  method CloserStart(ghost ds: seq<(int, int)>, ii: nat, distance: (int, int), startAt: nat, d1: int, d2: int)
    returns (startAt': nat, d1': int, d2': int)
    requires ii < |ds| && distance == ds[ii] && Start(startAt, d1, d2) == StartScan(ds, ii)
    ensures Start(startAt', d1', d2') == StartScan(ds, ii + 1)
  {
    startAt', d1', d2' := startAt, d1, d2;
    if distance.0 < d1 || (distance.0 == d1 && distance.1 < d2) {
      startAt', d1', d2' := ii, distance.0, distance.1;
    }
  }

  /** Links layout `ii` to its four neighbours, keeping the links of the layouts before it. */
  method SetNeighborLinks(ls: seq<EventLayout>, gs: seq<Geom>, box: Rect, ii: nat, ev: EventLayout)
    requires ii < |ls| == |gs| && ls[ii] == ev && Distinct(ls) && NoNullTie(gs, box)
    requires forall k :: 0 <= k < ii ==> NeighborLinked(ls, gs, box, k)
    modifies ev`nextUp, ev`nextDown, ev`nextLeft, ev`nextRight
    ensures forall k :: 0 <= k <= ii ==> NeighborLinked(ls, gs, box, k)
  {
    var up, down, left, right := NeighborsOf(gs, box, ii);
    label before:
    ev.nextUp, ev.nextDown := Link(ls, up), Link(ls, down);
    ev.nextLeft, ev.nextRight := Link(ls, left), Link(ls, right);
    forall k | 0 <= k < ii
      ensures NeighborLinked(ls, gs, box, k)
    {
      assert ls[k] != ev;
      assert old@before(NeighborLinked(ls, gs, box, k));
    }
  }

  /** Layout `k` links up and down to the last other layouts in the columns above and below it. */
  predicate AllDayLinked(ls: seq<EventLayout>, cols: seq<int>, k: nat)
    requires k < |ls| == |cols|
    reads ls[k]
  {
    ls[k].nextUp == Link(ls, LastInColumn(cols, k, cols[k] - 1, |cols|))
    && ls[k].nextDown == Link(ls, LastInColumn(cols, k, cols[k] + 1, |cols|))
  }

  /**
   * The main loop of `computeAllDayNeighbors` over the layouts `ls` in
   * columns `cols`: up and down links to the adjacent columns, and the
   * event to select.
   */
  method LinkAllDayNeighbors(ls: seq<EventLayout>, cols: seq<int>, startPosition: int)
    returns (selected: Option<nat>)
    requires |ls| == |cols| && Distinct(ls)
    modifies ls`nextUp, ls`nextDown
    ensures selected == AllDaySelection(cols, startPosition)
    ensures forall k :: 0 <= k < |ls| ==> AllDayLinked(ls, cols, k)
  {
    var maxPosition := -1;
    var startEvent: Option<nat> := None;
    var maxPositionEvent: Option<nat> := None;
    var ii := 0;
    while ii < |ls|
      invariant 0 <= ii <= |ls|
      invariant AllDayStart(startEvent, maxPosition, maxPositionEvent) == AllDayStartScan(cols, startPosition, ii)
      invariant forall k :: 0 <= k < ii ==> AllDayLinked(ls, cols, k)
    {
      var ev := ls[ii];
      var position := cols[ii];
      if position == startPosition {
        startEvent := Some(ii);
      } else if position > maxPosition {
        maxPositionEvent := Some(ii);
        maxPosition := position;
      }
      var up, down := AllDayLinksOf(cols, ii);
      ev.nextUp, ev.nextDown := Link(ls, up), Link(ls, down);
      ii := ii + 1;
    }
    selected := if startEvent.Some? then startEvent else maxPositionEvent;
  }

  /**
   * The inner loop of `computeNeighbors` for layout `ii`: its nearest
   * neighbour above, below, left and right.
   */
  method NeighborsOf(gs: seq<Geom>, box: Rect, ii: nat)
    returns (up: Option<nat>, down: Option<nat>, left: Option<nat>, right: Option<nat>)
    requires ii < |gs| && NoNullTie(gs, box)
    ensures up == Neighbor(gs, box, ii, Up) && down == Neighbor(gs, box, ii, Down)
    ensures left == Neighbor(gs, box, ii, Left) && right == Neighbor(gs, box, ii, Right)
  {
    var upDistanceMin, downDistanceMin := NEIGHBOR_SENTINEL, NEIGHBOR_SENTINEL;
    var leftDistanceMin, rightDistanceMin := NEIGHBOR_SENTINEL, NEIGHBOR_SENTINEL;
    up, down, left, right := None, None, None, None;
    var jj := 0;
    while jj < |gs|
      invariant 0 <= jj <= |gs|
      invariant SearchUpTo(gs, box, ii, Up, jj) == Best(upDistanceMin, up, false)
      invariant SearchUpTo(gs, box, ii, Down, jj) == Best(downDistanceMin, down, false)
      invariant SearchUpTo(gs, box, ii, Left, jj) == Best(leftDistanceMin, left, false)
      invariant SearchUpTo(gs, box, ii, Right, jj) == Best(rightDistanceMin, right, false)
    {
      if jj != ii {
        SearchNoTieBefore(gs, box, ii, Up, jj + 1);
        SearchNoTieBefore(gs, box, ii, Down, jj + 1);
        upDistanceMin, up, downDistanceMin, down :=
          VerticalStep(gs, box, ii, jj, upDistanceMin, up, downDistanceMin, down);
        SearchNoTieBefore(gs, box, ii, Left, jj + 1);
        SearchNoTieBefore(gs, box, ii, Right, jj + 1);
        rightDistanceMin, right, leftDistanceMin, left :=
          HorizontalStep(gs, box, ii, jj, rightDistanceMin, right, leftDistanceMin, left);
      }
      jj := jj + 1;
    }
  }

  /**
   * One neighbour `jj` of layout `ii`, above or below: wholly above and
   * overlapping, it competes for the up link by the gap in minutes and
   * then by horizontal distance from the centre; otherwise, wholly below
   * and overlapping, for the down link likewise.
   */
  method VerticalStep(gs: seq<Geom>, box: Rect, ii: nat, jj: nat,
                      upMin: int, up: Option<nat>, downMin: int, down: Option<nat>)
    returns (upMin': int, up': Option<nat>, downMin': int, down': Option<nat>)
    requires ii < |gs| && jj < |gs| && jj != ii
    requires SearchUpTo(gs, box, ii, Up, jj) == Best(upMin, up, false)
    requires SearchUpTo(gs, box, ii, Down, jj) == Best(downMin, down, false)
    requires !SearchUpTo(gs, box, ii, Up, jj + 1).npe
    requires !SearchUpTo(gs, box, ii, Down, jj + 1).npe
    ensures SearchUpTo(gs, box, ii, Up, jj + 1) == Best(upMin', up', false)
    ensures SearchUpTo(gs, box, ii, Down, jj + 1) == Best(downMin', down', false)
  {
    var ev, neighbor := gs[ii], gs[jj];
    upMin', up', downMin', down' := upMin, up, downMin, down;
    var center := JavaDiv(ev.left + ev.right, 2);
    if neighbor.endTime <= ev.startTime {
      if neighbor.left < ev.right && neighbor.right > ev.left {
        var distance := ev.startTime - neighbor.endTime;
        if distance < upMin {
          upMin', up' := distance, Some(jj);
        } else if distance == upMin {
          match up
          case None => assert false;
          case Some(u) =>
            if SpanGap(neighbor.left, neighbor.right, center) < SpanGap(gs[u].left, gs[u].right, center) {
              upMin', up' := distance, Some(jj);
            }
        }
      }
    } else if neighbor.startTime >= ev.endTime {
      if neighbor.left < ev.right && neighbor.right > ev.left {
        var distance := neighbor.startTime - ev.endTime;
        if distance < downMin {
          downMin', down' := distance, Some(jj);
        } else if distance == downMin {
          match down
          case None => assert false;
          case Some(u) =>
            if SpanGap(neighbor.left, neighbor.right, center) < SpanGap(gs[u].left, gs[u].right, center) {
              downMin', down' := distance, Some(jj);
            }
        }
      }
    }
  }

  /**
   * One neighbour `jj` of layout `ii`, right or left: wholly to the right,
   * it competes for the right link by vertical distance from the clipped
   * centre and then by the horizontal gap; otherwise, wholly to the left,
   * for the left link likewise.
   */
  method HorizontalStep(gs: seq<Geom>, box: Rect, ii: nat, jj: nat,
                        rightMin: int, right: Option<nat>, leftMin: int, left: Option<nat>)
    returns (rightMin': int, right': Option<nat>, leftMin': int, left': Option<nat>)
    requires ii < |gs| && jj < |gs| && jj != ii
    requires SearchUpTo(gs, box, ii, Right, jj) == Best(rightMin, right, false)
    requires SearchUpTo(gs, box, ii, Left, jj) == Best(leftMin, left, false)
    requires !SearchUpTo(gs, box, ii, Right, jj + 1).npe
    requires !SearchUpTo(gs, box, ii, Left, jj + 1).npe
    ensures SearchUpTo(gs, box, ii, Right, jj + 1) == Best(rightMin', right', false)
    ensures SearchUpTo(gs, box, ii, Left, jj + 1) == Best(leftMin', left', false)
  {
    var ev, neighbor := gs[ii], gs[jj];
    rightMin', right', leftMin', left' := rightMin, right, leftMin, left;
    var center := JavaDiv(ClipTop(ev, box) + ClipBottom(ev, box), 2);
    var distance := SpanGap(neighbor.top, neighbor.bottom, center);
    if neighbor.left >= ev.right {
      if distance < rightMin {
        rightMin', right' := distance, Some(jj);
      } else if distance == rightMin {
        match right
        case None => assert false;
        case Some(u) =>
          if neighbor.left - ev.right < gs[u].left - ev.right {
            rightMin', right' := distance, Some(jj);
          }
      }
    } else if neighbor.right <= ev.left {
      if distance < leftMin {
        leftMin', left' := distance, Some(jj);
      } else if distance == leftMin {
        match left
        case None => assert false;
        case Some(u) =>
          if ev.left - neighbor.right < ev.left - gs[u].right {
            leftMin', left' := distance, Some(jj);
          }
      }
    }
  }

  /**
   * The inner loop of `computeAllDayNeighbors` for layout `ii`: the last
   * other layout in the column above it and the last in the column below.
   */
  method AllDayLinksOf(cols: seq<int>, ii: nat) returns (up: Option<nat>, down: Option<nat>)
    requires ii < |cols|
    ensures up == LastInColumn(cols, ii, cols[ii] - 1, |cols|)
    ensures down == LastInColumn(cols, ii, cols[ii] + 1, |cols|)
  {
    var position := cols[ii];
    up, down := None, None;
    var jj := 0;
    while jj < |cols|
      invariant 0 <= jj <= |cols|
      invariant up == LastInColumn(cols, ii, position - 1, jj)
      invariant down == LastInColumn(cols, ii, position + 1, jj)
    {
      if jj != ii {
        var neighborPosition := cols[jj];
        if neighborPosition == position - 1 {
          up := Some(jj);
        } else if neighborPosition == position + 1 {
          down := Some(jj);
        }
      }
      jj := jj + 1;
    }
  }

  /**
   * The hour of an event's last minute: the minute before its end, or its
   * end itself when it does not end after it starts.
   */
  function EndHour(e: EventRecord): (h: int)
    ensures 0 < e.endTime && e.startTime < e.endTime ==> h * 60 < e.endTime <= h * 60 + 60
    ensures e.startTime >= e.endTime ==> h == JavaDiv(e.endTime, 60)
  {
    if e.startTime < e.endTime then JavaDiv(e.endTime - 1, 60) else JavaDiv(e.endTime, 60)
  }

  /**
   * Where `findSelectedEvent` moves the selected day and hour once event
   * `e` is selected: the day into the event's days, then, on its first
   * day, the hour to no earlier than its start hour, or, on its last day,
   * to no later than its end hour. For an event that does not end before
   * it starts, the result lies within the event.
   */
  function ClampToEvent(day: int, hour: int, e: EventRecord): (r: (int, int))
    ensures e.startDay <= e.endDay ==> e.startDay <= r.0 <= e.endDay
    ensures day < e.startDay ==> r.0 == e.startDay
    ensures e.startDay <= day && day > e.endDay ==> r.0 == e.endDay
    ensures e.startDay <= day <= e.endDay ==> r.0 == day
    ensures e.startDay < e.endDay || 0 <= e.startTime <= e.endTime ==>
              (r.0 == e.startDay ==> r.1 >= JavaDiv(e.startTime, 60))
              && (r.0 == e.endDay ==> r.1 <= EndHour(e))
    ensures r.0 != e.startDay && r.0 != e.endDay ==> r.1 == hour
    ensures JavaDiv(e.startTime, 60) <= hour <= EndHour(e) ==> r.1 == hour
  {
    var d := if day < e.startDay then e.startDay else if day > e.endDay then e.endDay else day;
    var startHour, endHour := JavaDiv(e.startTime, 60), EndHour(e);
    assert e.startDay == e.endDay && 0 <= e.startTime <= e.endTime ==> startHour <= endHour by {
      if 0 <= e.startTime < e.endTime {
        DivMono(e.startTime, e.endTime - 1, 60);
      }
    }
    var h := if hour < startHour && d == e.startDay then startHour
             else if hour > endHour && d == e.endDay then endHour
             else hour;
    (d, h)
  }

  /**
   * `incrementSkipCount` as written: its guard lets the call through when
   * `endIndex` equals the array's length, and the loop then indexes one
   * past the end.
   */
  predicate SkipGuardAsWritten(hasCounts: bool, length: int, startIndex: int, endIndex: int)
  {
    !(!hasCounts || startIndex < 0 || endIndex > length)
  }

  lemma SkipGuardAdmitsPastEnd()
    ensures SkipGuardAsWritten(true, 3, 0, 3) && !(3 < 3)
  {
  }

  /** The corrected guard: every index the loop visits lies in the array. */
  predicate SkipGuard(hasCounts: bool, length: int, startIndex: int, endIndex: int)
  {
    !(!hasCounts || startIndex < 0 || endIndex >= length)
  }

  lemma SkipGuardInBounds(length: int, startIndex: int, endIndex: int)
    ensures SkipGuard(true, length, startIndex, endIndex)
            <==> 0 <= startIndex && endIndex < length
    ensures SkipGuardAsWritten(true, length, startIndex, endIndex) && endIndex != length
            ==> SkipGuard(true, length, startIndex, endIndex)
  {
  }

  /**
   * `incrementSkipCount`, with the guard corrected: one more skipped event
   * on every day `startIndex..endIndex`, and no change when the range does
   * not fit in the array.
   */
  method IncrementSkipCount(counts: array?<int>, startIndex: int, endIndex: int)
    modifies counts
    ensures !SkipGuard(counts != null, if counts == null then 0 else counts.Length, startIndex, endIndex)
            ==> counts == null || counts[..] == old(counts[..])
    ensures counts != null && SkipGuard(true, counts.Length, startIndex, endIndex) ==>
              forall i :: 0 <= i < counts.Length ==>
                counts[i] == old(counts[i]) + (if startIndex <= i <= endIndex then 1 else 0)
  {
    if counts == null || startIndex < 0 || endIndex >= counts.Length {
      return;
    }
    var i := startIndex;
    while i <= endIndex
      invariant startIndex <= i <= endIndex + 1 || (i == startIndex && startIndex > endIndex)
      invariant forall k :: 0 <= k < counts.Length ==>
                  counts[k] == old(counts[k]) + (if startIndex <= k < i then 1 else 0)
    {
      counts[i] := counts[i] + 1;
      i := i + 1;
    }
  }

  /**
   * The body of `computeEventRelations`' loop for one event: an event with
   * no visible day is skipped; an all-day event is counted and marked on
   * the days it covers; a timed one lowers the earliest hours.
   */
  method RelateEvent(counts: array<int>, has: array<bool>, hours: array<int>,
                     first: int, last: int, event: EventRecord, maxAll: int) returns (m: int)
    requires counts != hours
    requires counts.Length == has.Length == hours.Length == last - first + 1
    requires maxAll == MaxOf(counts[..])
    modifies counts, has, hours
    ensures m == MaxOf(counts[..])
    ensures forall k :: 0 <= k < counts.Length ==>
              counts[k] == old(counts[k]) + (if CoversAllDay(event, first, last, first + k) then 1 else 0)
    ensures forall k :: 0 <= k < has.Length ==>
              has[k] == (old(has[k]) || CoversAllDay(event, first, last, first + k))
    ensures forall k :: 0 <= k < hours.Length ==>
              hours[k] == EarlierHour(event, first, last, first + k, old(hours[k]))
  {
    m := maxAll;
    if event.startDay > last || event.endDay < first {
      return;
    }
    if DrawAsAllday(event) {
      m := CountAllDayEvent(counts, first, Max(event.startDay, first), Min(event.endDay, last), maxAll);
      MarkAllDayEvent(has, first, event.startDay, event.endDay);
    } else {
      LowerEarliestHour(hours, first, event);
    }
  }

  /** `RelateEvent` for event `n` of `recs`, stated as one more step of the three folds. */
  method RelateNext(counts: array<int>, has: array<bool>, hours: array<int>, first: int, last: int,
                    event: EventRecord, ghost recs: seq<EventRecord>, n: nat, ghost has0: seq<bool>, ghost hours0: seq<int>,
                    maxAll: int) returns (m: int)
    requires counts != hours && n < |recs| && recs[n] == event
    requires counts.Length == has.Length == hours.Length == last - first + 1 == |has0| == |hours0|
    requires maxAll == MaxOf(counts[..])
    requires CountsAfter(counts[..], recs, first, last, n)
    requires HasAfter(has[..], has0, recs, first, last, n)
    requires EarliestAfter(hours[..], hours0, recs, first, last, n)
    modifies counts, has, hours
    ensures m == MaxOf(counts[..])
    ensures CountsAfter(counts[..], recs, first, last, n + 1)
    ensures HasAfter(has[..], has0, recs, first, last, n + 1)
    ensures EarliestAfter(hours[..], hours0, recs, first, last, n + 1)
  {
    ghost var c0, h0, e0 := counts[..], has[..], hours[..];
    m := RelateEvent(counts, has, hours, first, last, event, maxAll);
    CountsStep(c0, counts[..], recs, first, last, n);
    HasStep(h0, has[..], has0, recs, first, last, n);
    EarliestStep(e0, hours[..], hours0, recs, first, last, n);
  }

  /**
   * The counting loop for one all-day event: one more event on every day
   * `firstDay..lastDay` (Julian days, `counts[0]` is day `first`), with the
   * largest count kept up to date.
   */
  method CountAllDayEvent(counts: array<int>, first: int, firstDay: int, lastDay: int, maxAll: int)
    returns (m: int)
    requires first <= firstDay && lastDay < first + counts.Length
    requires maxAll == MaxOf(counts[..])
    modifies counts
    ensures forall k :: 0 <= k < counts.Length ==>
              counts[k] == old(counts[k]) + (if firstDay <= first + k <= lastDay then 1 else 0)
    ensures m == MaxOf(counts[..])
  {
    m := maxAll;
    var day := firstDay;
    while day <= lastDay
      invariant firstDay <= day && (day <= lastDay + 1 || day == firstDay)
      invariant forall k :: 0 <= k < counts.Length ==>
                  counts[k] == old(counts[k]) + (if firstDay <= first + k < day then 1 else 0)
      invariant m == MaxOf(counts[..])
    {
      ghost var before := counts[..];
      counts[day - first] := counts[day - first] + 1;
      assert counts[..] == before[day - first := before[day - first] + 1];
      MaxOfIncrement(before, day - first);
      var count := counts[day - first];
      if m < count {
        m := count;
      }
      day := day + 1;
    }
  }

  /**
   * The marking loop for one all-day event from Julian day `startDay` to
   * `endDay`: the days it covers within the `has.Length` days from `first`
   * are marked, clipping the event at both ends.
   */
  method MarkAllDayEvent(has: array<bool>, first: int, startDay: int, endDay: int)
    requires startDay - first < has.Length && endDay >= first
    modifies has
    ensures forall k :: 0 <= k < has.Length ==>
              has[k] == (old(has[k]) || Max(startDay, first) <= first + k <= Min(endDay, first + has.Length - 1))
  {
    var daynum := startDay - first;
    var durationDays := endDay - startDay + 1;
    if daynum < 0 {
      durationDays := durationDays + daynum;
      daynum := 0;
    }
    if daynum + durationDays > has.Length {
      durationDays := has.Length - daynum;
    }
    ghost var lo, hi := daynum, daynum + durationDays;
    assert lo == Max(startDay, first) - first && hi == Min(endDay, first + has.Length - 1) - first + 1;
    var day := daynum;
    while durationDays > 0
      invariant lo <= day && day + durationDays == hi && (day <= hi || day == lo)
      invariant forall k :: 0 <= k < has.Length ==> has[k] == (old(has[k]) || lo <= k < day)
    {
      has[day] := true;
      day := day + 1;
      durationDays := durationDays - 1;
    }
  }

  /**
   * The earliest-hour update for one visible timed event: its start hour
   * on its start day and its end hour on its end day, where lower.
   */
  method LowerEarliestHour(earliestStartHour: array<int>, first: int, event: EventRecord)
    requires Visible(event, first, first + earliestStartHour.Length - 1) && !DrawAsAllday(event)
    modifies earliestStartHour
    ensures forall k :: 0 <= k < earliestStartHour.Length ==>
              earliestStartHour[k] == EarlierHour(event, first, first + earliestStartHour.Length - 1,
                                                  first + k, old(earliestStartHour[k]))
  {
    var daynum := event.startDay - first;
    var hour := JavaDiv(event.startTime, 60);
    if daynum >= 0 && hour < earliestStartHour[daynum] {
      earliestStartHour[daynum] := hour;
    }
    daynum := event.endDay - first;
    hour := JavaDiv(event.endTime, 60);
    if daynum < earliestStartHour.Length && hour < earliestStartHour[daynum] {
      earliestStartHour[daynum] := hour;
    }
  }

  lemma MulMono(a: int, b: int, w: int)
    requires a <= b && w >= 0
    ensures a * w <= b * w
  {
  }

  lemma MulDivCancel(w: int, n: int)
    requires w >= 0 && n > 0
    ensures (n * w) / n == w
  {
    var q := (n * w) / n;
    assert n * w == w * n;
    if q > w {
      MulMono(w + 1, q, n);
    } else if q < w {
      MulMono(q, w - 1, n);
    }
  }

  lemma DivMono(a: int, b: int, n: int)
    requires 0 <= a <= b && n > 0
    ensures a / n <= b / n
  {
    var qa, qb := a / n, b / n;
    if qa > qb {
      MulMono(qb + 1, qa, n);
    }
  }
}
