/**
 * `DayViewOnKeyListener`: the keyboard and trackball state machine of the
 * day view. Key-down moves the selection mode, the selected event, hour or
 * day; key-up on the centre key confirms a press. What the listener asks
 * of the outside world (a redraw, switching to the agenda view, deleting an
 * event, a long click, tracking the back key, dismissing the popup) is
 * recorded, in order, in `actions`.
 */
module KeyNavigation {
  import opened Events
  import opened Layouts
  import opened DayViews

  /** Android key codes the listener reacts to. */
  const KEYCODE_BACK := 4
  const KEYCODE_DPAD_UP := 19
  const KEYCODE_DPAD_DOWN := 20
  const KEYCODE_DPAD_LEFT := 21
  const KEYCODE_DPAD_RIGHT := 22
  const KEYCODE_DPAD_CENTER := 23
  const KEYCODE_ENTER := 66
  const KEYCODE_DEL := 67

  /** Android key actions. */
  const ACTION_DOWN := 0
  const ACTION_UP := 1

  /** A request the listener makes of the view or the event bus. */
  datatype Action =
    | Invalidate
    | SwitchViews
    | DismissPopup
    | DeleteEvent(event: Event)
    | StartTracking
    | PerformLongClick

  /** The keys that, with the selection hidden, only make it visible. */
  predicate RevealKey(keyCode: int)
  {
    keyCode == KEYCODE_ENTER || keyCode == KEYCODE_DPAD_RIGHT || keyCode == KEYCODE_DPAD_LEFT
    || keyCode == KEYCODE_DPAD_UP || keyCode == KEYCODE_DPAD_DOWN
  }

  /**
   * Whether a key-down moves the selection: the four arrows, and the back
   * key when it repeats, since its case falls through to the left arrow.
   */
  predicate Moves(keyCode: int, repeatCount: int)
  {
    keyCode == KEYCODE_DPAD_LEFT || keyCode == KEYCODE_DPAD_RIGHT
    || keyCode == KEYCODE_DPAD_UP || keyCode == KEYCODE_DPAD_DOWN
    || (keyCode == KEYCODE_BACK && repeatCount != 0)
  }

  /** The neighbour of `l` an arrow key moves to; the back key counts as left. */
  function NextFor(l: EventLayout, keyCode: int): EventLayout?
    reads l
  {
    if keyCode == KEYCODE_DPAD_RIGHT then l.nextRight
    else if keyCode == KEYCODE_DPAD_UP then l.nextUp
    else if keyCode == KEYCODE_DPAD_DOWN then l.nextDown
    else l.nextLeft
  }

  /** The day change a horizontal move makes when no event is selected afterwards. */
  function DayStep(keyCode: int): int
  {
    if keyCode == KEYCODE_DPAD_RIGHT then 1
    else if keyCode == KEYCODE_DPAD_UP || keyCode == KEYCODE_DPAD_DOWN then 0
    else -1
  }

  class DayViewOnKeyListener {
    const dayView: DayView
    var actions: seq<Action>

    constructor(dv: DayView)
      ensures dayView == dv && actions == []
    {
      dayView := dv;
      actions := [];
    }

    /**
     * `onKeyUp`: scrolling stops; the centre key turns a press into a
     * selection, opens the selected slot on a short press and long-clicks
     * on a long one, and does nothing while the selection is hidden. The
     * result is always `false`.
     */
    method OnKeyUp(keyCode: int, duration: int, longPressTimeout: int) returns (handled: bool)
      modifies dayView`scrolling, dayView`selectionMode, this`actions
      ensures !handled && !dayView.scrolling
      ensures var mode := old(dayView.selectionMode);
              if keyCode != KEYCODE_DPAD_CENTER || mode == SELECTION_HIDDEN then
                dayView.selectionMode == mode && actions == old(actions)
              else if mode == SELECTION_PRESSED then
                dayView.selectionMode == SELECTION_SELECTED && actions == old(actions) + [Invalidate]
              else if duration < longPressTimeout then
                dayView.selectionMode == mode && actions == old(actions) + [SwitchViews]
              else
                dayView.selectionMode == SELECTION_LONGPRESS
                && actions == old(actions) + [Invalidate, PerformLongClick]
    {
      dayView.scrolling := false;
      if keyCode == KEYCODE_DPAD_CENTER {
        if dayView.selectionMode == SELECTION_HIDDEN {
        } else if dayView.selectionMode == SELECTION_PRESSED {
          dayView.selectionMode := SELECTION_SELECTED;
          actions := actions + [Invalidate];
        } else if duration < longPressTimeout {
          actions := actions + [SwitchViews];
        } else {
          dayView.selectionMode := SELECTION_LONGPRESS;
          actions := actions + [Invalidate, PerformLongClick];
        }
      }
      handled := false;
    }

    /**
     * `onKeyDown`. With the selection hidden, ENTER and the arrows only
     * show it and the centre key shows it pressed. Otherwise the selection
     * is shown and scrolling stops, and then: DEL deletes the selected
     * event (reporting `false` when there is none), ENTER opens the
     * selection, BACK starts tracking on its first press, an arrow moves to
     * the selected event's neighbour that way or, with none, one day left or
     * right, one hour up or down, or from the all-day area down into the
     * hours; a move to another day switches to that day, any other move
     * redraws. Every other key reports `false`.
     */
    method OnKeyDown(keyCode: int, repeatCount: int) returns (handled: bool)
      requires dayView.maxAlldayEvents > 0 ==>
                 0 <= dayView.selectionDay - dayView.firstJulianDay < dayView.earliestStartHour.Length
      modifies dayView`selectionMode, dayView`scrolling, dayView`selectedEvent, dayView`lastPopupEventID,
               dayView`selectionHour, dayView`prevSelectedEvent, dayView`selectionAllday,
               dayView`firstHour, dayView`viewStartY, dayView`selectedEvents,
               dayView`computeSelectedEvents, dayView`selectionDay, this`actions
      // The selection was hidden: it is shown, and nothing moves.
      ensures old(dayView.selectionMode) == SELECTION_HIDDEN && (RevealKey(keyCode) || keyCode == KEYCODE_DPAD_CENTER) ==>
                handled
                && dayView.selectionMode == (if keyCode == KEYCODE_DPAD_CENTER then SELECTION_PRESSED else SELECTION_SELECTED)
                && actions == old(actions) + [Invalidate]
                && dayView.scrolling == old(dayView.scrolling)
                && dayView.selectedEvent == old(dayView.selectedEvent)
                && dayView.selectionDay == old(dayView.selectionDay)
                && dayView.selectionHour == old(dayView.selectionHour)
                && dayView.selectionAllday == old(dayView.selectionAllday)
      // Every other path shows the selection and stops scrolling.
      ensures !(old(dayView.selectionMode) == SELECTION_HIDDEN && (RevealKey(keyCode) || keyCode == KEYCODE_DPAD_CENTER)) ==>
                dayView.selectionMode == SELECTION_SELECTED && !dayView.scrolling
      // Keys that do not move the selection.
      ensures !(old(dayView.selectionMode) == SELECTION_HIDDEN && (RevealKey(keyCode) || keyCode == KEYCODE_DPAD_CENTER))
              && !Moves(keyCode, repeatCount) ==>
                dayView.selectedEvent == old(dayView.selectedEvent)
                && dayView.selectionDay == old(dayView.selectionDay)
                && dayView.selectionHour == old(dayView.selectionHour)
                && dayView.selectionAllday == old(dayView.selectionAllday)
                && (if keyCode == KEYCODE_DEL then
                      if old(dayView.selectedEvent) == null then
                        !handled && actions == old(actions)
                        && dayView.lastPopupEventID == old(dayView.lastPopupEventID)
                      else
                        handled && actions == old(actions) + [DismissPopup, DeleteEvent(old(dayView.selectedEvent.event))]
                        && dayView.lastPopupEventID == INVALID_EVENT_ID
                    else if keyCode == KEYCODE_ENTER then
                      handled && actions == old(actions) + [SwitchViews]
                    else if keyCode == KEYCODE_BACK then
                      handled && actions == old(actions) + [StartTracking]
                    else
                      !handled && actions == old(actions))
      // The arrows (and a repeated BACK, as left).
      ensures !(old(dayView.selectionMode) == SELECTION_HIDDEN && (RevealKey(keyCode) || keyCode == KEYCODE_DPAD_CENTER))
              && Moves(keyCode, repeatCount) ==>
                var moved := if old(dayView.selectedEvent) == null then null
                             else old(NextFor(dayView.selectedEvent, keyCode));
                var day := old(dayView.selectionDay) + (if moved == null then DayStep(keyCode) else 0);
                handled
                && dayView.selectedEvent == moved
                && dayView.lastPopupEventID == (if moved == null then INVALID_EVENT_ID else old(dayView.lastPopupEventID))
                && dayView.selectionDay == day
                && (day != old(dayView.selectionDay) ==>
                      actions == old(actions) && dayView.selectedEvents == [] && dayView.computeSelectedEvents)
                && (day == old(dayView.selectionDay) ==> actions == old(actions) + [Invalidate])
                && (if moved != null || (keyCode != KEYCODE_DPAD_UP && keyCode != KEYCODE_DPAD_DOWN) then
                      dayView.selectionHour == old(dayView.selectionHour)
                      && dayView.selectionAllday == old(dayView.selectionAllday)
                    else if keyCode == KEYCODE_DPAD_UP then
                      if old(dayView.selectionAllday) then
                        dayView.selectionHour == old(dayView.selectionHour) && dayView.selectionAllday
                      else
                        dayView.HourAdjusted(old(dayView.HourViewOf()), old(dayView.selectionHour) - 1)
                    else if old(dayView.selectionAllday) then
                      dayView.selectionHour == old(dayView.selectionHour) && !dayView.selectionAllday
                    else
                      dayView.HourAdjusted(old(dayView.HourViewOf()), old(dayView.selectionHour) + 1))
    {
      var dv := dayView;
      if dv.selectionMode == SELECTION_HIDDEN {
        if RevealKey(keyCode) {
          dv.selectionMode := SELECTION_SELECTED;
          actions := actions + [Invalidate];
          return true;
        } else if keyCode == KEYCODE_DPAD_CENTER {
          dv.selectionMode := SELECTION_PRESSED;
          actions := actions + [Invalidate];
          return true;
        }
      }
      dv.selectionMode := SELECTION_SELECTED;
      dv.scrolling := false;
      if keyCode == KEYCODE_DEL {
        var selected := dv.selectedEvent;
        if selected == null {
          return false;
        }
        actions := actions + [DismissPopup];
        dv.lastPopupEventID := INVALID_EVENT_ID;
        actions := actions + [DeleteEvent(selected.event)];
        return true;
      } else if keyCode == KEYCODE_ENTER {
        actions := actions + [SwitchViews];
        return true;
      } else if keyCode == KEYCODE_BACK && repeatCount == 0 {
        actions := actions + [StartTracking];
        return true;
      } else if !Moves(keyCode, repeatCount) {
        return false;
      }
      handled := Navigate(keyCode);
    }

    /**
     * The arrow cases of `onKeyDown`, from the selection move to the
     * decision between switching day and redrawing.
     */
    method Navigate(keyCode: int) returns (handled: bool)
      requires dayView.maxAlldayEvents > 0 ==>
                 0 <= dayView.selectionDay - dayView.firstJulianDay < dayView.earliestStartHour.Length
      modifies dayView`selectedEvent, dayView`lastPopupEventID,
               dayView`selectionHour, dayView`prevSelectedEvent, dayView`selectionAllday,
               dayView`firstHour, dayView`viewStartY, dayView`selectedEvents,
               dayView`computeSelectedEvents, dayView`selectionDay, this`actions
      ensures var moved := if old(dayView.selectedEvent) == null then null
                           else old(NextFor(dayView.selectedEvent, keyCode));
              var day := old(dayView.selectionDay) + (if moved == null then DayStep(keyCode) else 0);
              handled
              && dayView.selectedEvent == moved
              && dayView.lastPopupEventID == (if moved == null then INVALID_EVENT_ID else old(dayView.lastPopupEventID))
              && dayView.selectionDay == day
              && (day != old(dayView.selectionDay) ==>
                    actions == old(actions) && dayView.selectedEvents == [] && dayView.computeSelectedEvents)
              && (day == old(dayView.selectionDay) ==> actions == old(actions) + [Invalidate])
              && (if moved != null || (keyCode != KEYCODE_DPAD_UP && keyCode != KEYCODE_DPAD_DOWN) then
                    dayView.selectionHour == old(dayView.selectionHour)
                    && dayView.selectionAllday == old(dayView.selectionAllday)
                  else if keyCode == KEYCODE_DPAD_UP then
                    if old(dayView.selectionAllday) then
                      dayView.selectionHour == old(dayView.selectionHour) && dayView.selectionAllday
                    else
                      dayView.HourAdjusted(old(dayView.HourViewOf()), old(dayView.selectionHour) - 1)
                  else if old(dayView.selectionAllday) then
                    dayView.selectionHour == old(dayView.selectionHour) && !dayView.selectionAllday
                  else
                    dayView.HourAdjusted(old(dayView.HourViewOf()), old(dayView.selectionHour) + 1))
    {
      var dv := dayView;
      var selectionDay := dv.selectionDay;
      selectionDay := MoveSelection(keyCode, selectionDay);
      if dv.selectionDay != selectionDay {
        var _ := dv.SwitchToDay(selectionDay);
        return true;
      }
      actions := actions + [Invalidate];
      return true;
    }

    /**
     * The arrow cases of `onKeyDown`: move to the selected event's
     * neighbour; with none, clear the popup and step the day (left, right)
     * or the hour (up, down), or leave the all-day area going down.
     * Returns the day to show.
     */
    method MoveSelection(keyCode: int, selectionDay: int) returns (day: int)
      requires dayView.maxAlldayEvents > 0 ==>
                 0 <= dayView.selectionDay - dayView.firstJulianDay < dayView.earliestStartHour.Length
      modifies dayView`selectedEvent, dayView`lastPopupEventID,
               dayView`selectionHour, dayView`prevSelectedEvent, dayView`selectionAllday,
               dayView`firstHour, dayView`viewStartY, dayView`selectedEvents, dayView`computeSelectedEvents
      ensures var moved := if old(dayView.selectedEvent) == null then null
                           else old(NextFor(dayView.selectedEvent, keyCode));
              dayView.selectedEvent == moved
              && dayView.lastPopupEventID == (if moved == null then INVALID_EVENT_ID else old(dayView.lastPopupEventID))
              && day == selectionDay + (if moved == null then DayStep(keyCode) else 0)
              && (if moved != null || (keyCode != KEYCODE_DPAD_UP && keyCode != KEYCODE_DPAD_DOWN) then
                    dayView.selectionHour == old(dayView.selectionHour)
                    && dayView.selectionAllday == old(dayView.selectionAllday)
                    && dayView.selectedEvents == old(dayView.selectedEvents)
                    && dayView.computeSelectedEvents == old(dayView.computeSelectedEvents)
                  else if keyCode == KEYCODE_DPAD_UP then
                    if old(dayView.selectionAllday) then
                      dayView.selectionHour == old(dayView.selectionHour) && dayView.selectionAllday
                    else
                      dayView.HourAdjusted(old(dayView.HourViewOf()), old(dayView.selectionHour) - 1)
                  else if old(dayView.selectionAllday) then
                    dayView.selectionHour == old(dayView.selectionHour) && !dayView.selectionAllday
                  else
                    dayView.HourAdjusted(old(dayView.HourViewOf()), old(dayView.selectionHour) + 1))
    {
      var dv := dayView;
      day := selectionDay;
      if dv.selectedEvent != null {
        dv.selectedEvent := NextFor(dv.selectedEvent, keyCode);
      }
      if dv.selectedEvent == null {
        dv.lastPopupEventID := INVALID_EVENT_ID;
        if keyCode == KEYCODE_DPAD_UP {
          if !dv.selectionAllday {
            dv.DecreaseSelectedHour(1);
          }
        } else if keyCode == KEYCODE_DPAD_DOWN {
          if dv.selectionAllday {
            dv.selectionAllday := false;
          } else {
            dv.IncreaseSelectedHour(1);
          }
        } else {
          day := day + DayStep(keyCode);
        }
      }
    }

    /** `onKey`: key-down and key-up go to their handlers; any other action reports `false`. */
    method OnKey(action: int, keyCode: int, repeatCount: int, duration: int, longPressTimeout: int)
      returns (handled: bool)
      requires dayView.maxAlldayEvents > 0 ==>
                 0 <= dayView.selectionDay - dayView.firstJulianDay < dayView.earliestStartHour.Length
      modifies dayView`selectionMode, dayView`scrolling, dayView`selectedEvent, dayView`lastPopupEventID,
               dayView`selectionHour, dayView`prevSelectedEvent, dayView`selectionAllday,
               dayView`firstHour, dayView`viewStartY, dayView`selectedEvents,
               dayView`computeSelectedEvents, dayView`selectionDay, this`actions
      ensures action == ACTION_UP ==> !handled
      ensures action != ACTION_DOWN && action != ACTION_UP ==>
                !handled && actions == old(actions) && dayView.selectionMode == old(dayView.selectionMode)
    {
      if action == ACTION_DOWN {
        handled := OnKeyDown(keyCode, repeatCount);
      } else if action == ACTION_UP {
        handled := OnKeyUp(keyCode, duration, longPressTimeout);
      } else {
        handled := false;
      }
    }
  }
}
