/**
 * The column-packing sweep of `EventLayout.doComputePositions`, stated on
 * values. The events are a sequence of records in increasing start order;
 * the active and group lists hold positions in that sequence; `cols` and
 * `maxes` are the `column` and `maxColumns` of every layout in the list.
 */
module Packing {
  import opened Common
  import opened Events
  import opened ColumnMask

  /**
   * Whether the active event `a` has ended by the time `e` starts. All-day
   * events end with their Julian end day; timed events last at least
   * `minDur` milliseconds.
   */
  predicate Expired(allDay: bool, a: EventRecord, e: EventRecord, minDur: int)
  {
    if allDay then a.endDay < e.startDay
    else a.startMillis + Max(a.endMillis - a.startMillis, minDur) <= e.startMillis
  }

  /** Every position in `xs` indexes a list of length `n`. */
  predicate InRange(xs: seq<nat>, n: int)
  {
    forall x :: x in xs ==> x < n
  }

  lemma SuffixInRange(xs: seq<nat>, n: int, t: nat)
    requires InRange(xs, n) && t <= |xs|
    ensures InRange(xs[t..], n)
  {
    assert forall x :: x in xs[t..] ==> x in xs;
  }

  /** The active list left after an eviction, and the column mask. */
  datatype Evicted = Evicted(remaining: seq<nat>, mask: bv64)

  /**
   * The eviction loop: `rest` is still to be visited, `kept` holds the
   * visited events that stay active. An expired event leaves the list and
   * its column bit is cleared; `1L << column` shifts by the low six bits of
   * the column, hence `% 64`.
   */
  function EvictFrom(recs: seq<EventRecord>, cols: seq<int>, allDay: bool, e: EventRecord,
                     minDur: int, kept: seq<nat>, rest: seq<nat>, mask: bv64): (r: Evicted)
    requires |cols| == |recs| && InRange(rest, |recs|)
    ensures forall x :: x in r.remaining ==> x in kept || x in rest
    decreases |rest|
  {
    if rest == [] then Evicted(kept, mask)
    else
      var a := rest[0];
      assert a in rest && forall x :: x in rest[1..] ==> x in rest;
      if Expired(allDay, recs[a], e, minDur) then
        EvictFrom(recs, cols, allDay, e, minDur, kept, rest[1..], ClearBit(mask, cols[a] % 64))
      else
        EvictFrom(recs, cols, allDay, e, minDur, kept + [a], rest[1..], mask)
  }

  /** `removeAlldayActiveEvents` / `removeNonAlldayActiveEvents` before placing `e`. */
  function Evict(recs: seq<EventRecord>, cols: seq<int>, allDay: bool, e: EventRecord,
                 minDur: int, active: seq<nat>, mask: bv64): Evicted
    requires |cols| == |recs| && InRange(active, |recs|)
  {
    EvictFrom(recs, cols, allDay, e, minDur, [], active, mask)
  }

  /** All-day eviction does not look at the minimum duration. */
  lemma {:induction false} AlldayEvictionFromIgnoresDuration(recs: seq<EventRecord>, cols: seq<int>, e: EventRecord,
                                                             minDur: int, kept: seq<nat>, rest: seq<nat>, mask: bv64)
    requires |cols| == |recs| && InRange(rest, |recs|)
    ensures EvictFrom(recs, cols, true, e, minDur, kept, rest, mask)
            == EvictFrom(recs, cols, true, e, 0, kept, rest, mask)
    decreases |rest|
  {
    if rest != [] {
      var a := rest[0];
      assert a in rest;
      SuffixInRange(rest, |recs|, 1);
      if Expired(true, recs[a], e, minDur) {
        AlldayEvictionFromIgnoresDuration(recs, cols, e, minDur, kept, rest[1..], ClearBit(mask, cols[a] % 64));
      } else {
        AlldayEvictionFromIgnoresDuration(recs, cols, e, minDur, kept + [a], rest[1..], mask);
      }
    }
  }

  lemma AlldayEvictionIgnoresDuration(recs: seq<EventRecord>, cols: seq<int>, e: EventRecord,
                                      minDur: int, active: seq<nat>, mask: bv64)
    requires |cols| == |recs| && InRange(active, |recs|)
    ensures Evict(recs, cols, true, e, 0, active, mask) == Evict(recs, cols, true, e, minDur, active, mask)
  {
    AlldayEvictionFromIgnoresDuration(recs, cols, e, minDur, [], active, mask);
  }

  /** Every member of `group` gets `maxColumns` `v`; every other entry keeps its value. */
  function AssignMax(maxes: seq<int>, group: seq<nat>, v: int): (r: seq<int>)
    ensures |r| == |maxes|
    ensures forall j :: 0 <= j < |maxes| ==> r[j] == if j in group then v else maxes[j]
  {
    seq(|maxes|, j requires 0 <= j < |maxes| => if j in group then v else maxes[j])
  }

  /** The locals of the sweep and the two fields it writes. */
  datatype PassState = PassState(active: seq<nat>, group: seq<nat>, mask: bv64, maxCols: int,
                                 cols: seq<int>, maxes: seq<int>)

  predicate WF(st: PassState, n: int)
  {
    |st.cols| == n && |st.maxes| == n && InRange(st.active, n) && InRange(st.group, n)
  }

  /** The state before the first event: empty lists, empty mask, no width yet. */
  function Init(cols: seq<int>, maxes: seq<int>): PassState
  {
    PassState([], [], 0, 0, cols, maxes)
  }

  /** The column `findFirstZeroBit` picks, with 64 clamped to 63. */
  function FreeColumn(mask: bv64): (col: int)
    ensures 0 <= col < 64
  {
    var z := FirstZeroBit(mask);
    if z == 64 then 63 else z
  }

  /**
   * After the eviction: when nothing is left active the group closes (its
   * members get `maxCols`) and mask, width and group start afresh.
   */
  function Reopen(st: PassState, ev: Evicted): (r: PassState)
    requires InRange(ev.remaining, |st.cols|)
    ensures WF(st, |st.cols|) ==> WF(r, |st.cols|)
  {
    if ev.remaining == [] then
      st.(active := [], group := [], mask := 0, maxCols := 0,
          maxes := AssignMax(st.maxes, st.group, st.maxCols))
    else
      st.(active := ev.remaining, mask := ev.mask)
  }

  /**
   * Places event `i` in the first free column: sets its bit, records the
   * column, appends `i` to the active and group lists and widens `maxCols`
   * to the active count.
   */
  function Place(st: PassState, i: nat): (r: PassState)
    requires i < |st.cols|
    ensures WF(st, |st.cols|) ==> WF(r, |st.cols|)
  {
    var col := FreeColumn(st.mask);
    st.(active := st.active + [i], group := st.group + [i],
        mask := SetBit(st.mask, col), cols := st.cols[i := col],
        maxCols := Max(st.maxCols, |st.active| + 1))
  }

  /** One iteration of the sweep's loop, for the event at position `i`. */
  function Step(recs: seq<EventRecord>, allDay: bool, minDur: int, st: PassState, i: nat): (r: PassState)
    requires WF(st, |recs|) && i < |recs|
    ensures WF(r, |recs|)
  {
    if DrawAsAllday(recs[i]) != allDay then st
    else Place(Reopen(st, Evict(recs, st.cols, allDay, recs[i], minDur, st.active, st.mask)), i)
  }

  /** The state after the loop has visited positions `0..k-1`. */
  function Runs(recs: seq<EventRecord>, allDay: bool, minDur: int, init: PassState, k: nat): (r: PassState)
    requires k <= |recs| && WF(init, |recs|)
    ensures WF(r, |recs|)
    decreases k
  {
    if k == 0 then init
    else Step(recs, allDay, minDur, Runs(recs, allDay, minDur, init, k - 1), k - 1)
  }

  /** The `column` and `maxColumns` of every layout. */
  datatype Placement = Placement(cols: seq<int>, maxes: seq<int>)

  /**
   * `doComputePositions`: a negative minimum duration is raised to 0, the
   * loop visits every event, and the last group gets its width.
   */
  function Pass(recs: seq<EventRecord>, cols: seq<int>, maxes: seq<int>, allDay: bool, minDur: int): (p: Placement)
    requires |cols| == |recs| && |maxes| == |recs|
    ensures |p.cols| == |recs| && |p.maxes| == |recs|
  {
    var st := Runs(recs, allDay, Max(minDur, 0), Init(cols, maxes), |recs|);
    Placement(st.cols, AssignMax(st.maxes, st.group, st.maxCols))
  }

  /** `computePositions`: the timed pass, then the all-day pass. */
  function ComputePositions(recs: seq<EventRecord>, cols: seq<int>, maxes: seq<int>, minDur: int): Placement
    requires |cols| == |recs| && |maxes| == |recs|
  {
    var timed := Pass(recs, cols, maxes, false, minDur);
    Pass(recs, timed.cols, timed.maxes, true, minDur)
  }
}
