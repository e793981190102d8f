# yadview day view: layout and navigation, in Dafny

yadview is an Android calendar "day view" widget. It shows one or more days
as columns of hours, with an all-day strip above them. This project models
the integer core of that widget and proves properties of the model.

The model covers:

- **Events and layouts.** An `Event` holds one event record: days, minutes,
  millis, colour and attendee status. An `EventLayout` wraps an event with
  its column, its column count, its rectangle and four neighbour links.
- **Column packing** (`EventLayout.computePositions`). A sweep over the
  events gives every event the lowest column that no overlapping active
  event holds, using a 64-bit column mask. Each group of overlapping events
  then receives as its column count the largest number of its events
  active at once. Timed and all-day events are packed in two separate
  passes.
- **Day view state** (`DayView`):
  - the day grid;
  - the first visible hour;
  - the selected day and hour and how they are clamped and scrolled;
  - the selection made from a touch position;
  - the per-day all-day counts and earliest hours (`computeEventRelations`);
  - the neighbour links between the selected events
    (`computeNeighbors`, `computeAllDayNeighbors`).
- **Keyboard listener** (`DayViewOnKeyListener`): a state machine over the
  selection mode, the selected event, hour and day. Each request it makes
  of the view or the event bus is recorded, in order, as an action.
- **Scrolling controller**: the touch mode and the cumulative scroll
  distances, with the events it posts.
- **Event renderer** (`DefaultEventRenderer`):
  - the event rectangle, its colour, paint style and alpha;
  - the text rectangle;
  - the text sanitiser.
- **Rendering and date utilities**: the colour of a declined event, and the
  weekend columns.

Modules follow the source files:

| module | file | source |
|---|---|---|
| `Common` | common.dfy | Java `int` division, rectangles, `Option` |
| `Events` | events.dfy | `Event` |
| `ColumnMask` | column_mask.dfy | the 64-bit column mask of `EventLayout` |
| `Layouts` | layouts.dfy | `EventLayout` and its packing methods over objects |
| `Packing` | packing.dfy | the packing sweep as a function over values |
| `PackingProofs`, `PackingClean` | packing_proofs.dfy | what the sweep guarantees |
| `PackingPeak` | packing_peak.dfy | the column count each group receives |
| `Neighbors` | neighbors.dfy | the neighbour search as functions over values |
| `EventRelations` | event_relations.dfy | all-day counts and earliest hours as functions |
| `DayViews` | dayview.dfy | `DayView` |
| `KeyNavigation` | key_navigation.dfy | `DayViewOnKeyListener` |
| `Scrolling` | scrolling.dfy | `DayViewScrollingController` |
| `EventRenderer` | event_renderer.dfy | `DefaultEventRenderer` |
| `RenderingUtils` | rendering_utils.dfy | `EventRenderingUtils` |
| `CalendarDates` | calendar_dates.dfy | `CalendarDateUtils` |

How the source's types are modelled:

- Java `int` and `long` values are unbounded integers.
- Integer division is Java's truncating division (`JavaDiv`).
- Colours are 32-bit vectors. The column mask is a 64-bit vector.
- Float coordinates are cast to `int`, as the code itself does before it
  compares them.
- Scroll distances are reals.
- Where the source mutates objects (layouts, the view, the listener, the
  controller, the renderer and its paint), the objects are Dafny classes.
- These methods are proved equal to functions over values, and the
  properties are proved about those functions:
  `DoComputePositions` and `ComputePositions` (the packing sweep),
  `ComputeEventRelations`, `ComputeNeighbors`, `ComputeAllDayNeighbors`,
  `DrawEventRect` and `DrawEvent` (the draws they append).
- The other methods (`OnKeyUp`, `OnKeyDown`, `MoveSelection`, `Scrolled`,
  `SwitchToDay`, `ResetSelectedHour`, `SetSelectionFromPosition` and the
  like) state their outcomes directly in their postconditions.

One place where the code and its comment differ; the model follows the
code. The comment of `drawTextSanitizer` says tabs and newlines become
spaces. The code turns only `'\n'` into a space. It also drops a tab or
newline that stands just before a comma, which is the regular expression
`[\t\n],` at DefaultEventRenderer.java:49.

A note on the paint style of an invited event: an invited event that is
selected keeps whatever style the paint already had, and only an
unselected invited event is stroked. The model does the same.

## Model

Paths are relative to the repository root. `DayView.java`, `Event.java`,
`EventLayout.java`, `DayViewOnKeyListener.java` and
`DayViewScrollingController.java` live in
`com.google.code.yadview/src/com/google/code/yadview/`.

| member | source | states |
|---|---|---|
| Events.Event.constructor | com.google.code.yadview/src/com/google/code/yadview/Event.java:55-70 | A new event has id, colour, days, times and millis 0, null title and location, flags false and attendee status NONE. |
| Events.Event.Clone | com.google.code.yadview/src/com/google/code/yadview/Event.java:74-95 | The clone is a fresh object with every field of the original, except the id and the two double times, which are 0. |
| Events.Event.CopyTo | com.google.code.yadview/src/com/google/code/yadview/Event.java:97-114 | The destination takes every field of the source event except the two double times, which it keeps. |
| Events.DrawAsAlldayThreshold | com.google.code.yadview/src/com/google/code/yadview/Event.java:185-188 | Lengthening an event never takes it out of the all-day strip. A timed event of exactly one day is drawn there, and one a millisecond shorter is not. |
| Events.IntersectsIsOverlap | com.google.code.yadview/src/com/google/code/yadview/Event.java:133-160 | `intersects` holds exactly when the event's span of absolute minutes meets the queried span of the day. The event must start by the query's end. It must end after the query's start, or exactly at it when the event has zero length. |
| Events.TitleAndLocationShape | com.google.code.yadview/src/com/google/code/yadview/Event.java:170-183 | The text starts with the title. It ends with the location whenever there is one. It equals the title alone exactly when the location is null or already ends the title; otherwise it is title + ", " + location. |
| ColumnMask.FindFirstZeroBit | com.google.code.yadview/src/com/google/code/yadview/EventLayout.java:165-171 | Returns the position of the lowest clear bit: every lower bit is set and that bit is clear. It returns 64 when all bits are set. |
| ColumnMask.FirstZeroBitSpec | com.google.code.yadview/src/com/google/code/yadview/EventLayout.java:165-171 | The reference function for `findFirstZeroBit` names the lowest clear bit, or 64. |
| Layouts.EventLayout.constructor | com.google.code.yadview/src/com/google/code/yadview/EventLayout.java:48-50 | A new layout wraps the event. Column, column count and rectangle are 0 and all four links are null. |
| Layouts.SetColumn | com.google.code.yadview/src/com/google/code/yadview/EventLayout.java:181-183 | Only the chosen layout's column changes; no column count or rectangle changes. |
| Layouts.SetMaxColumns | com.google.code.yadview/src/com/google/code/yadview/EventLayout.java:104-109 | Every layout in the group gets the column count; every other layout and every column is unchanged. |
| Layouts.RemoveAlldayActiveEvents | com.google.code.yadview/src/com/google/code/yadview/EventLayout.java:132-144 | Returns the active list without the all-day events that end before the new event's start day, and the mask without their columns. |
| Layouts.RemoveNonAlldayActiveEvents | com.google.code.yadview/src/com/google/code/yadview/EventLayout.java:146-163 | Returns the active list without the timed events whose end (stretched to the minimum duration) is at or before the new event's start, and the mask without their columns. |
| Layouts.FirstFreeColumn | com.google.code.yadview/src/com/google/code/yadview/EventLayout.java:116-118 | The column for a new event is the first clear bit of the mask, or 63 when all 64 are set. |
| Layouts.EvictAndReopen | com.google.code.yadview/src/com/google/code/yadview/EventLayout.java:96-112 | Removes ended events. When the active list becomes empty, it gives the closed group its column count and clears the group, the mask and the count. |
| Layouts.PlaceEvent | com.google.code.yadview/src/com/google/code/yadview/EventLayout.java:114-124 | Gives the event the first free column, sets that bit, adds the event to the active list and the group, and raises the count to the active list's size. |
| Layouts.VisitEvent | com.google.code.yadview/src/com/google/code/yadview/EventLayout.java:89-124 | One loop step over the event list equals one step of the value-level sweep; events of the other kind are skipped. |
| Layouts.DoComputePositions | com.google.code.yadview/src/com/google/code/yadview/EventLayout.java:81-130 | The columns and column counts the objects are left with are those of the value-level sweep. Events and rectangles are unchanged. |
| Layouts.ComputePositions | com.google.code.yadview/src/com/google/code/yadview/EventLayout.java:69-79 | Runs the timed pass and then the all-day pass. The objects end with the columns and counts of both sweeps in turn. |
| Packing.AlldayEvictionIgnoresDuration | com.google.code.yadview/src/com/google/code/yadview/EventLayout.java:97-100 | The all-day pass does not depend on the minimum duration: all-day eviction with any duration equals eviction with duration 0. |
| PackingProofs.EvictFromSpec | com.google.code.yadview/src/com/google/code/yadview/EventLayout.java:132-163 | Eviction keeps exactly the active events that have not ended. A mask bit stays set exactly when no ended event held that column. |
| PackingProofs.FreeColumnBound | com.google.code.yadview/src/com/google/code/yadview/EventLayout.java:116-118 | When every set bit is held by an active event, the first free column is at most the number of active events. |
| PackingProofs.RunsInv | com.google.code.yadview/src/com/google/code/yadview/EventLayout.java:88-124 | After any number of steps: group members have columns in 0..63 below the running count. Placed events outside the group have columns below their own count. Events of the other kind are untouched. |
| PackingProofs.PassPlacement | com.google.code.yadview/src/com/google/code/yadview/EventLayout.java:81-130 | After one pass, every event of the pass's kind has a column in 0..63 below its column count. Every event of the other kind keeps its column and count. |
| PackingProofs.ComputePositionsPlacement | com.google.code.yadview/src/com/google/code/yadview/EventLayout.java:69-79 | After both passes, every event has a column in 0..63 strictly below its column count. |
| PackingClean.CleanRuns | com.google.code.yadview/src/com/google/code/yadview/EventLayout.java:88-124 | While at most 64 events are active at once: no two active events share a column, and the mask is exactly the set of their columns. |
| PackingClean.FreeColumnSpec | com.google.code.yadview/src/com/google/code/yadview/EventLayout.java:116-118 | If some bit is clear, the chosen column is the lowest clear bit; if all are set, it is 63. |
| PackingPeak.PeakSpec | com.google.code.yadview/src/com/google/code/yadview/EventLayout.java:119-124 | A group's peak is the largest number of events active right after one of its members is placed. Some member attains it, and a group with no member has peak 0. |
| PackingPeak.Survivors | com.google.code.yadview/src/com/google/code/yadview/EventLayout.java:96-102 | At an event of the pass's kind, eviction keeps exactly the earlier events of the kind that have not ended by the start of any event of the kind after them, up to and including this one. It keeps none exactly when the event opens a new group. |
| PackingPeak.PeakRuns | com.google.code.yadview/src/com/google/code/yadview/EventLayout.java:88-124 | After any number of steps: the active list holds each live event once, the group holds the members of the open group, the running count is that group's peak so far, and every member of an earlier group holds its group's peak. |
| PackingPeak.SizeIsActiveCount | com.google.code.yadview/src/com/google/code/yadview/EventLayout.java:119-124 | Right after an event is visited, the active list holds exactly as many events as are live at that point. |
| PackingPeak.PassPeak | com.google.code.yadview/src/com/google/code/yadview/EventLayout.java:81-130 | After one pass, every event of the pass's kind has as its column count the peak of its group, with a negative minimum duration taken as 0. |
| PackingPeak.SameGroupSameWidth | com.google.code.yadview/src/com/google/code/yadview/EventLayout.java:102-112 | Two events of the same group get the same column count. |
| Neighbors.NeighborSpec | com.google.code.yadview/src/com/google/code/yadview/DayView.java:2793-2912 | In each direction, the neighbour found is a candidate at less than the sentinel distance that precedes every other candidate: nearer, then by the tie-break key, then earlier in the list. No neighbour means every candidate lies beyond the sentinel. |
| Neighbors.NeighborUnique | com.google.code.yadview/src/com/google/code/yadview/DayView.java:2793-2912 | The neighbour is determined: a candidate below the sentinel distance that precedes every other candidate is the one the search finds. |
| Neighbors.NeighborsApart | com.google.code.yadview/src/com/google/code/yadview/DayView.java:2793-2912 | An event is never its own neighbour. Its up and down neighbours differ, and so do its left and right neighbours. |
| Neighbors.PrevAreaSpec | com.google.code.yadview/src/com/google/code/yadview/DayView.java:2659-2689 | The previously selected event is kept exactly when it meets the previous selection box. The area used is that event's span clipped to the box, and otherwise the box itself. |
| Neighbors.ArrivalSpec | com.google.code.yadview/src/com/google/code/yadview/DayView.java:2691-2708 | The arrival side is one of the five constants. It is "none" exactly when the previous area overlaps the current box, and "right" exactly when the previous area lies wholly to the right. |
| Neighbors.StartScanSpec | com.google.code.yadview/src/com/google/code/yadview/DayView.java:2751-2790 | The start event has the lexicographically least pair of distances; among equal pairs it is the earliest in the list. When no pair beats the sentinel, it is the first event. |
| Neighbors.StartWithoutArrival | com.google.code.yadview/src/com/google/code/yadview/DayView.java:2649-2652 | With no previous location, the first selected event is chosen. |
| Neighbors.LastInColumnSpec | com.google.code.yadview/src/com/google/code/yadview/DayView.java:2559-2570 | The all-day link found is the last other event in the target column; none means no other event is in that column. |
| Neighbors.AllDayStartSpec | com.google.code.yadview/src/com/google/code/yadview/DayView.java:2543-2576 | The start event is the last one in the previous selection's column. Otherwise it is the first event in the highest other column. |
| EventRelations.MaxAllDaySpec | com.google.code.yadview/src/com/google/code/yadview/DayView.java:1721-1737 | The maximum is at least 0 and bounds every visible day's all-day count. When days are shown, some day attains it. |
| EventRelations.AllDayCountPositive | com.google.code.yadview/src/com/google/code/yadview/DayView.java:1728-1737 | A day's all-day count is positive exactly when some event drawn as all-day covers it. |
| EventRelations.HiddenNotCounted | com.google.code.yadview/src/com/google/code/yadview/DayView.java:1725-1727 | An event outside the visible days counts on no day. |
| EventRelations.EarliestSpec | com.google.code.yadview/src/com/google/code/yadview/DayView.java:1751-1765 | The earliest hour is at most its initial value and at most every hour a timed event starts or ends at on that day. It is the initial value or one of those hours. |
| DayViews.WeekStartDiffSpec | com.google.code.yadview/src/com/google/code/yadview/DayView.java:979-989 | Stepping back by the computed number of days lands on the first day of the week, never more than six days back, and zero days exactly when already there. |
| DayViews.DayView.DayLeftPositionSpec | com.google.code.yadview/src/com/google/code/yadview/DayView.java:1902-1905 | Day 0 starts at the hours column, day `numDays` at the view's width, and day edges never move left. |
| DayViews.DayView.DayLeftEdge | com.google.code.yadview/src/com/google/code/yadview/DayView.java:1907-1913 | Returns a fresh array of `numDays + 1` day edges, each the left position of its day. |
| DayViews.DayView.ComputeFirstHour | com.google.code.yadview/src/com/google/code/yadview/DayView.java:1539-1543 | The first hour is the first one whose top is at or below the scroll position. Its offset lies in 0 up to (but not including) one hour's pitch. |
| DayViews.DayView.InitFirstHour | com.google.code.yadview/src/com/google/code/yadview/DayView.java:1526-1533 | The first hour puts the selection a fifth of the page down, clamped so that the visible hours fit in 0..24. |
| DayViews.DayView.SetSelectedHour | com.google.code.yadview/src/com/google/code/yadview/DayView.java:3969-3972 | The selected hour becomes the given hour. |
| DayViews.DayView.ClampSelectedHour | com.google.code.yadview/src/com/google/code/yadview/DayView.java:1546-1556 | The hour is brought into 0..23. Stepping above midnight while all-day events exist moves the selection to the all-day area and drops the previous event. |
| DayViews.DayView.ScrollToSelectedHour | com.google.code.yadview/src/com/google/code/yadview/DayView.java:1558-1598 | Near the top, the selection either moves to the all-day area or the view scrolls up by one hour, not below 0. Near the bottom, the view scrolls down by one hour, not past the maximum. |
| DayViews.DayView.AdjustHourSelection | com.google.code.yadview/src/com/google/code/yadview/DayView.java:1545-1599 | The selected hour ends in 0..23, and the view is the clamp followed by the scroll. |
| DayViews.DayView.IncreaseSelectedHour | com.google.code.yadview/src/com/google/code/yadview/DayView.java:4201-4206 | Adds `n` hours, then adjusts. The selected events are dropped to be computed again. |
| DayViews.DayView.DecreaseSelectedHour | com.google.code.yadview/src/com/google/code/yadview/DayView.java:4208-4215 | Subtracts `n` hours, then adjusts. The selected events are dropped to be computed again. |
| DayViews.DayView.ResetSelectedHour | com.google.code.yadview/src/com/google/code/yadview/DayView.java:1512-1524 | A selection outside the hours `firstHour + 1 .. firstHour + numHours - 3` is moved to the nearer end, and the selected event is dropped. A selection inside that range is left alone. |
| DayViews.DayView.SwitchToDay | com.google.code.yadview/src/com/google/code/yadview/DayView.java:1231-1266 | The day is selected and the selected events are dropped. It reports a view switch exactly when the day lies outside the visible days. |
| DayViews.DayView.DayAtPosition | com.google.code.yadview/src/com/google/code/yadview/DayView.java:3684-3693 | The day is a visible day. Left of the grid means the first day. Otherwise the position lies within the day's column pitch. |
| DayViews.DayView.HourAtPosition | com.google.code.yadview/src/com/google/code/yadview/DayView.java:3700-3717 | Above the grid gives the first hour, and the partial hour at the top gives the hour before it. Otherwise the position lies within the hour's cell. |
| DayViews.DayView.SetSelectionFromPosition | com.google.code.yadview/src/com/google/code/yadview/DayView.java:3669-3749 | Returns false in the day header, where only the day is taken. Kept selections restore the day, hour and all-day flag. Otherwise the day and hour come from the position, and the all-day flag is set above the first cell. |
| DayViews.EndHour | com.google.code.yadview/src/com/google/code/yadview/DayView.java:3872-3877 | For an event that ends after it starts, the end hour is the hour holding its last minute. Otherwise it is the hour of the end time. |
| DayViews.ClampToEvent | com.google.code.yadview/src/com/google/code/yadview/DayView.java:3862-3882 | The day is moved into the event's days. On its first day the hour is at least the start hour, and on its last day at most the end hour. Hours already within the event's hours are kept. |
| DayViews.DayView.KeepSelectionInEvent | com.google.code.yadview/src/com/google/code/yadview/DayView.java:3862-3882 | The selected day and hour become their clamp into the selected event. |
| DayViews.IncrementSkipCount | com.google.code.yadview/src/com/google/code/yadview/DayView.java:2485-2492 | With the guard corrected: every day from start to end gets one more skipped event. When the range does not fit the array, nothing changes. |
| DayViews.SkipGuardAdmitsPastEnd | com.google.code.yadview/src/com/google/code/yadview/DayView.java:2486 | The guard as written lets `endIndex == counts.length` through, though that index is outside the array. |
| DayViews.SkipGuardInBounds | com.google.code.yadview/src/com/google/code/yadview/DayView.java:2486 | The corrected guard admits exactly the ranges inside the array. It agrees with the guard as written except at `endIndex == length`. |
| DayViews.CountAllDayEvent | com.google.code.yadview/src/com/google/code/yadview/DayView.java:1730-1737 | Each covered day's count grows by one, and the running maximum is the maximum of the counts. |
| DayViews.MarkAllDayEvent | com.google.code.yadview/src/com/google/code/yadview/DayView.java:1739-1750 | The days the event covers, clipped to the visible days, are marked as holding an all-day event; other days are unchanged. |
| DayViews.LowerEarliestHour | com.google.code.yadview/src/com/google/code/yadview/DayView.java:1751-1765 | A timed event lowers the earliest hour of its start day to its start hour, and of its end day to its end hour. |
| DayViews.RelateEvent | com.google.code.yadview/src/com/google/code/yadview/DayView.java:1724-1766 | One event's effect: counts and marks on the days it covers as all-day, and lowered earliest hours. |
| DayViews.RelateNext | com.google.code.yadview/src/com/google/code/yadview/DayView.java:1723-1766 | One iteration of the loop: counts, marks and earliest hours go from reflecting the first `n` events to the first `n + 1`, and the running maximum stays the largest count. |
| DayViews.DayView.ComputeEventRelations | com.google.code.yadview/src/com/google/code/yadview/DayView.java:1702-1767 | The maximum all-day count, the days holding an all-day event and each day's earliest hour equal those the reference functions give for the view's events. |
| DayViews.DayView.ComputeNeighbors | com.google.code.yadview/src/com/google/code/yadview/DayView.java:2634-2920 | Does nothing when no events are selected or one is already chosen. Otherwise every event's four links are its neighbours, the selected event is the start event, and the previous event is kept only when it met the previous box. |
| DayViews.DayView.ComputeAllDayNeighbors | com.google.code.yadview/src/com/google/code/yadview/DayView.java:2521-2577 | Does nothing when no events are selected or one is already chosen. Otherwise each event's up and down links are the events in the columns above and below, its side links are null, and the start event is selected. |
| DayViews.ClearLinks | com.google.code.yadview/src/com/google/code/yadview/DayView.java:2640-2647 | Every selected layout's four links become null. |
| DayViews.VerticalStep | com.google.code.yadview/src/com/google/code/yadview/DayView.java:2800-2862 | One candidate of the up/down search: the running best above and below stay the search's results over one more candidate. |
| DayViews.HorizontalStep | com.google.code.yadview/src/com/google/code/yadview/DayView.java:2864-2912 | One candidate of the left/right search: the running best to the right and left stay the search's results over one more candidate. |
| DayViews.SetNeighborLinks | com.google.code.yadview/src/com/google/code/yadview/DayView.java:2914-2917 | The layout's four links become its four neighbours; the links of the layouts before it stay as they were. |
| DayViews.LinkNeighbors | com.google.code.yadview/src/com/google/code/yadview/DayView.java:2713-2918 | Every layout links to its four neighbours, and the start event found is the one with the least pair of distances from the previous area. |
| DayViews.AllDayLinksOf | com.google.code.yadview/src/com/google/code/yadview/DayView.java:2558-2569 | The up and down links found are the last other events in the columns just above and just below. |
| DayViews.LinkAllDayNeighbors | com.google.code.yadview/src/com/google/code/yadview/DayView.java:2550-2576 | Every layout links up and down to the last other events in the adjacent columns. The selected event is the one in the previous selection's column, or else the first in the highest other column. |
| DayViews.NeighborsOf | com.google.code.yadview/src/com/google/code/yadview/DayView.java:2742-2913 | The search loop for one event finds its neighbour in each of the four directions. |
| KeyNavigation.DayViewOnKeyListener.constructor | com.google.code.yadview/src/com/google/code/yadview/DayViewOnKeyListener.java:36-38 | The listener acts on the given view and has made no requests yet. |
| KeyNavigation.DayViewOnKeyListener.OnKey | com.google.code.yadview/src/com/google/code/yadview/DayViewOnKeyListener.java:42-50 | Key-up never reports handled. Any action other than down or up reports false and changes nothing. |
| KeyNavigation.DayViewOnKeyListener.OnKeyUp | com.google.code.yadview/src/com/google/code/yadview/DayViewOnKeyListener.java:53-89 | Scrolling stops and the key is never handled. The centre key does nothing while the selection is hidden. After a press the selection is selected again and redrawn. A short press switches views; a long press turns into a long click. |
| KeyNavigation.DayViewOnKeyListener.OnKeyDown | com.google.code.yadview/src/com/google/code/yadview/DayViewOnKeyListener.java:91-197 | A hidden selection is only shown: pressed for the centre key, selected for the reveal keys. Otherwise the selection is shown and scrolling stops. Delete removes the selected event, if any, and dismisses the popup. Enter switches views, back starts tracking, and other non-moving keys are not handled. |
| KeyNavigation.DayViewOnKeyListener.MoveSelection | com.google.code.yadview/src/com/google/code/yadview/DayViewOnKeyListener.java:137-185 | An arrow follows the selected event's link in its direction when there is one. Otherwise left and right step a day, and up and down move the hour (or in and out of the all-day area). |
| KeyNavigation.DayViewOnKeyListener.Navigate | com.google.code.yadview/src/com/google/code/yadview/DayViewOnKeyListener.java:137-197 | An arrow key is handled. A new day switches to that day; the same day is redrawn. |
| Scrolling.Direction.DirectionConstant | com.google.code.yadview/src/com/google/code/yadview/DayViewScrollingController.java:40-53 | Left to right is 1 and right to left is -1. |
| Scrolling.ResolveForDistance | com.google.code.yadview/src/com/google/code/yadview/DayViewScrollingController.java:55-63 | A positive distance scrolls left to right, a negative one right to left, and zero has no direction (each an iff). |
| Scrolling.ResolvedConstantIsSign | com.google.code.yadview/src/com/google/code/yadview/DayViewScrollingController.java:40-63 | A resolved direction's constant has the sign of the distance, and only the sign matters. |
| Scrolling.DayViewScrollingController.constructor | com.google.code.yadview/src/com/google/code/yadview/DayViewScrollingController.java:29-38 | Starts in the initial mode, with no direction, zero totals and nothing posted. |
| Scrolling.DayViewScrollingController.Reset | com.google.code.yadview/src/com/google/code/yadview/DayViewScrollingController.java:72-77 | Back to the initial mode, with no direction and zero totals; neither kind of scrolling is reported. |
| Scrolling.DayViewScrollingController.IsHorizontalScrolling | com.google.code.yadview/src/com/google/code/yadview/DayViewScrollingController.java:79-81 | True exactly in the horizontal mode. |
| Scrolling.DayViewScrollingController.IsVerticalScrolling | com.google.code.yadview/src/com/google/code/yadview/DayViewScrollingController.java:83-85 | True exactly in the vertical mode. |
| Scrolling.DayViewScrollingController.NeverBoth | com.google.code.yadview/src/com/google/code/yadview/DayViewScrollingController.java:79-85 | A gesture never scrolls both ways at once. |
| Scrolling.DayViewScrollingController.StartedHorizontalScrolling | com.google.code.yadview/src/com/google/code/yadview/DayViewScrollingController.java:87-91 | The mode becomes horizontal with the given direction, and the start is posted. |
| Scrolling.DayViewScrollingController.StartedVerticalScrolling | com.google.code.yadview/src/com/google/code/yadview/DayViewScrollingController.java:97-99 | The mode becomes vertical. |
| Scrolling.DayViewScrollingController.Scrolled | com.google.code.yadview/src/com/google/code/yadview/DayViewScrollingController.java:102-107 | The totals stay the sums of all distances since the last reset. A scroll event with the new totals is posted. |
| RenderingUtils.DeclinedEventTextAlpha | com.google.code.yadview/src/com/google/code/yadview/util/EventRenderingUtils.java:33-35 | The declined text alpha is 0xC0, a valid alpha. |
| RenderingUtils.DeclinedColorFromColor | com.google.code.yadview/src/com/google/code/yadview/util/EventRenderingUtils.java:40-47 | The declined colour is always opaque: its top byte is 0xff. |
| RenderingUtils.DeclinedColorChannels | com.google.code.yadview/src/com/google/code/yadview/util/EventRenderingUtils.java:40-47 | The declined colour is opaque whatever the input alpha. Each channel is the input channel at alpha 0x66 over white, computed in 32-bit arithmetic. |
| RenderingUtils.BlendBounds | com.google.code.yadview/src/com/google/code/yadview/util/EventRenderingUtils.java:40-47 | A blended channel lies in 152..254 and grows with its input. |
| CalendarDates.WeekendColumns | com.google.code.yadview/src/com/google/code/yadview/util/CalendarDateUtils.java:38-49 | For a week starting Sunday, Monday or Saturday, `isSaturday` and `isSunday` hold exactly on the column showing that week day. For any other start they never hold. |
| CalendarDates.NotBothWeekendDays | com.google.code.yadview/src/com/google/code/yadview/util/CalendarDateUtils.java:38-49 | No column is both Saturday and Sunday. |
| CalendarDates.FirstDayOfWeek | com.google.code.yadview/src/com/google/code/yadview/util/CalendarDateUtils.java:62-68 | Calendar's Saturday, Monday and Sunday map to the Time day of the same name, and anything else maps to Sunday. |
| EventRenderer.AlphaIsSet | com.google.code.yadview/src/com/google/code/yadview/impl/DefaultEventRenderer.java:184-190 | Setting the paint's alpha sets the top byte and keeps the three colour channels. |
| EventRenderer.RestoreAlpha | com.google.code.yadview/src/com/google/code/yadview/impl/DefaultEventRenderer.java:184-190 | Restoring the saved alpha gives back the original colour. |
| EventRenderer.SelectedUsesClickedColor | com.google.code.yadview/src/com/google/code/yadview/impl/DefaultEventRenderer.java:150-155 | A selected event is painted in the clicked colour whatever its status. |
| EventRenderer.DeclinedColorOfUnselected | com.google.code.yadview/src/com/google/code/yadview/impl/DefaultEventRenderer.java:150-155 | An unselected declined event gets the opaque blend with white of its colour. Any other unselected event gets its own colour. |
| EventRenderer.StyleChoice | com.google.code.yadview/src/com/google/code/yadview/impl/DefaultEventRenderer.java:157-173 | The invited status is stroked when unselected, and keeps the incoming style when selected. Every other status fills and strokes. |
| EventRenderer.TextRect | com.google.code.yadview/src/com/google/code/yadview/impl/DefaultEventRenderer.java:204-221 | A degenerate rectangle collapses to its top-left corner. Otherwise each margin pair is applied only when the rectangle is larger than it. The result is never inverted and stays inside the input for non-negative margins. |
| EventRenderer.ReplaceDropsOnlyBlanks | com.google.code.yadview/src/com/google/code/yadview/impl/DefaultEventRenderer.java:49 | The comma filter removes only tabs and newlines. |
| EventRenderer.ReplaceWithoutComma | com.google.code.yadview/src/com/google/code/yadview/impl/DefaultEventRenderer.java:49 | Text without a comma passes the filter unchanged. |
| EventRenderer.NewlinesToSpaces | com.google.code.yadview/src/com/google/code/yadview/impl/DefaultEventRenderer.java:291 | Every newline becomes a space; every other character and the length are kept. |
| EventRenderer.DrawTextSanitizer | com.google.code.yadview/src/com/google/code/yadview/impl/DefaultEventRenderer.java:278-292 | The result has no newline and at most `maxLen` characters; it is empty for `maxLen <= 0`. It is the filtered text, cut to `maxLen`, with newlines turned into spaces. |
| EventRenderer.FilledRect | com.google.code.yadview/src/com/google/code/yadview/impl/DefaultEventRenderer.java:177-183 | The filled rectangle lies within the visible band. It lies inside the event by the margins and half the stroke width. Its width is the event's width less one stroke. |
| EventRenderer.DefaultEventRenderer.constructor | com.google.code.yadview/src/com/google/code/yadview/impl/DefaultEventRenderer.java:53-57 | Starts with an empty rectangle, alpha 255 and no cached text layouts. |
| EventRenderer.DefaultEventRenderer.SetEventsAlpha | com.google.code.yadview/src/com/google/code/yadview/impl/DefaultEventRenderer.java:294-297 | The alpha becomes the given one. |
| EventRenderer.DefaultEventRenderer.PrepareForEvents | com.google.code.yadview/src/com/google/code/yadview/impl/DefaultEventRenderer.java:299-302 | The text layout cache is emptied. |
| EventRenderer.DefaultEventRenderer.SetupTextRect | com.google.code.yadview/src/com/google/code/yadview/impl/DefaultEventRenderer.java:204-221 | The rectangle becomes its text rectangle. |
| EventRenderer.DefaultEventRenderer.ChoosePaint | com.google.code.yadview/src/com/google/code/yadview/impl/DefaultEventRenderer.java:150-173 | Picks the colour for the event's status and selection, and sets the paint style as the status switch does. |
| EventRenderer.DefaultEventRenderer.DrawAtAlpha | com.google.code.yadview/src/com/google/code/yadview/impl/DefaultEventRenderer.java:184-190 | Draws the rectangle once at the view's alpha. The paint ends with the plain colour and its own alpha restored. |
| EventRenderer.DefaultEventRenderer.FillRect | com.google.code.yadview/src/com/google/code/yadview/impl/DefaultEventRenderer.java:184-200 | Draws the event once at the view's alpha. A selected event that is drawn as selected is drawn again, filled in the pressed colour. |
| EventRenderer.DefaultEventRenderer.DrawEventRect | com.google.code.yadview/src/com/google/code/yadview/impl/DefaultEventRenderer.java:147-201 | The rectangle is the filled rectangle. Exactly the draws the status, selection and alpha call for are appended. The paint ends filled, antialiased only for a selected event. |
| EventRenderer.DefaultEventRenderer.DrawEvent | com.google.code.yadview/src/com/google/code/yadview/impl/DefaultEventRenderer.java:66-98 | Appends exactly the draws of `drawEventRect` for the event's filled rectangle, inset by the left margin, in the colour, style and alpha its status and selection call for. The paint ends in the pressed or event colour, filled, antialiased only for a selected event. The renderer's rectangle ends as the text rectangle of the event inset by its margins. |

## Findings

| source | as written | input that shows it | evidently intended | confidence | as-written member | corrected member |
|---|---|---|---|---|---|---|
| com.google.code.yadview/src/com/google/code/yadview/DayView.java:2486 | `incrementSkipCount` returns early only when `endIndex > counts.length`, then increments `counts[startIndex..endIndex]` inclusive | `counts.length == 3`, `startIndex == 0`, `endIndex == 3`: the guard lets the call through and the loop writes `counts[3]` | return early when `endIndex >= counts.length` | not executed | DayViews.SkipGuardAdmitsPastEnd | DayViews.IncrementSkipCount |

`SkipGuardAsWritten` is the guard as written; `SkipGuardAdmitsPastEnd` shows
it admits the input above. `SkipGuard` is the corrected guard;
`SkipGuardInBounds` proves it admits exactly the ranges inside the array.
`IncrementSkipCount` uses the corrected guard and is proved to stay in
bounds.

## Left out

- Drawing and Android plumbing are not modelled. This covers the canvas beyond the recorded rectangle draws, animations, the scroller, popups, toasts, accessibility, context menus and the long-click listener. They are I/O.
- Event geometry (`EventGeometry`: turning minutes into pixel rectangles) is not modelled. Layout rectangles are fields holding the values it would give.
- `findSelectedEvent`'s hit test is not modelled; only its final clamp of the selection into the chosen event is (`KeepSelectionInEvent`). This is geometry over floats.
- DayViews.DayView.SetSelectionFromPosition: restores the day, hour and all-day flag for `keepOldSelection`, but not the selected event it also saves and restores, because the hit test that changes the event is not modelled.
- DayViews.DayView.SwitchToDay: only reports whether the view must switch. The `Time` arithmetic and the event-bus post of the new date are left out; they are calendar library calls.
- `adjustToBeginningOfWeek` is modelled only as the number of days it steps back (`WeekStartDiffSpec`). The `Time` normalisation is a library call.
- DayViews.DayView.ComputeEventRelations: the all-day height computation and the later reads of the skipped-event counts are left out. They only feed drawing.
- `initAllDayHeights`, the view's measuring and sizing, and the `DayViewEventLoader` are not part of this model. They read resources or load data.
- DayViews.DayView.ComputeNeighbors: requires distinct selected layouts and no candidate at exactly the sentinel distance 10000 that ties with "none found". In that tie the source compares against a null event and throws.
- DayViews.DayView.ComputeAllDayNeighbors: requires distinct selected layouts, as the source's list of distinct objects has.
- EventRenderer.DefaultEventRenderer.DrawEvent: `drawEventText`, `getEventLayout` and the text layout cache contents are left out. `StaticLayout` text measurement is an Android library.
- `getDisplayColorFromColor` is left out. It converts through HSV in floating point.
- `getFirstDayOfWeek` is modelled only from the start day onwards (`FirstDayOfWeek`). Reading the preference and the locale is I/O.
- KeyNavigation.DayViewOnKeyListener.OnKey: states the up and other-action outcomes only. Key-down's outcome is the contract of `OnKeyDown`, and key-up's full outcome is the contract of `OnKeyUp`.
- The key event's repeat count, its press duration and the long-press timeout are method parameters. They come from the Android framework.
- PackingClean.CleanRuns: assumes at most 64 events active at once. Beyond that the source reuses column 63.
- Floats: coordinates are cast to `int` as the code does. Scroll distances are exact reals, so float rounding of the totals is not modelled.
- Java's 32-bit `int` and 64-bit `long` overflow is not modelled outside the colour and mask arithmetic, where it is written out. `minimumDurationMillis` and the millisecond fields are unbounded.
- Events.TitleAndLocationShape: requires a non-null title. `getTitleAndLocation` calls `toString` on the title (Event.java:171), which throws a NullPointerException for a null title, as a new event has. The event loader replaces a null or empty title with a placeholder (impl/DefaultEventResource.java:233-235), so displayed events always have one.
- Getters and setters that only read or write one field (the link getters, the selection getters, the event field setters) have no members of their own. They are field accesses in the model.
