/**
 * `EventLayout`: an event with the column it was given, the width of its
 * overlap group, its on-screen rectangle and its four navigation links,
 * together with the static packing methods of the same class. Screen
 * coordinates are held as `int`: every comparison the view makes on them
 * casts them to `int` first.
 */
module Layouts {
  import opened Common
  import opened Events
  import opened ColumnMask
  import opened Packing

  class EventLayout {
    const event: Event
    var column: int
    var maxColumns: int
    var left: int
    var right: int
    var top: int
    var bottom: int
    var nextRight: EventLayout?
    var nextLeft: EventLayout?
    var nextUp: EventLayout?
    var nextDown: EventLayout?

    /** A layout for `e`: column, width and rectangle 0, no links. */
    constructor(e: Event)
      ensures event == e && column == 0 && maxColumns == 0
      ensures left == 0 && right == 0 && top == 0 && bottom == 0
      ensures nextRight == null && nextLeft == null && nextUp == null && nextDown == null
    {
      event := e;
      column, maxColumns := 0, 0;
      left, right, top, bottom := 0, 0, 0, 0;
      nextRight, nextLeft, nextUp, nextDown := null, null, null, null;
    }
  }

  /** No layout occurs twice in the list. */
  predicate Distinct(ls: seq<EventLayout>)
  {
    forall i, j :: 0 <= i < j < |ls| ==> ls[i] != ls[j]
  }

  /** The events' records, in list order. */
  function Recs(ls: seq<EventLayout>): (rs: seq<EventRecord>)
    reads set l | l in ls :: l.event
    ensures |rs| == |ls|
  {
    seq(|ls|, i reads set l | l in ls :: l.event requires 0 <= i < |ls| => ls[i].event.rec)
  }

  /** The layouts' columns, in list order. */
  function Columns(ls: seq<EventLayout>): (cs: seq<int>)
    reads set l | l in ls
    ensures |cs| == |ls|
  {
    seq(|ls|, i reads set l | l in ls requires 0 <= i < |ls| => ls[i].column)
  }

  /** The layouts' `maxColumns`, in list order. */
  function MaxColumnsOf(ls: seq<EventLayout>): (ms: seq<int>)
    reads set l | l in ls
    ensures |ms| == |ls|
  {
    seq(|ls|, i reads set l | l in ls requires 0 <= i < |ls| => ls[i].maxColumns)
  }

  /** What the packing leaves alone: rectangles and links. */
  datatype Frame = Frame(left: int, right: int, top: int, bottom: int,
                         nextRight: EventLayout?, nextLeft: EventLayout?,
                         nextUp: EventLayout?, nextDown: EventLayout?)

  function Frames(ls: seq<EventLayout>): (fs: seq<Frame>)
    reads set l | l in ls
    ensures |fs| == |ls|
  {
    seq(|ls|, i reads set l | l in ls requires 0 <= i < |ls| =>
      Frame(ls[i].left, ls[i].right, ls[i].top, ls[i].bottom,
            ls[i].nextRight, ls[i].nextLeft, ls[i].nextUp, ls[i].nextDown))
  }

  /** `setColumn` on the layout at position `k`. */
  method SetColumn(ls: seq<EventLayout>, k: nat, col: int)
    requires k < |ls| && Distinct(ls)
    modifies ls[k]
    ensures Columns(ls) == old(Columns(ls))[k := col]
    ensures MaxColumnsOf(ls) == old(MaxColumnsOf(ls)) && Frames(ls) == old(Frames(ls))
  {
    ls[k].column := col;
  }

  /** `ev.setMaxColumns(maxCols)` for every member of the group. */
  method SetMaxColumns(ls: seq<EventLayout>, group: seq<nat>, maxCols: int)
    requires Distinct(ls) && InRange(group, |ls|)
    modifies set l | l in ls
    ensures MaxColumnsOf(ls) == AssignMax(old(MaxColumnsOf(ls)), group, maxCols)
    ensures Columns(ls) == old(Columns(ls)) && Frames(ls) == old(Frames(ls))
  {
    var t := 0;
    while t < |group|
      invariant 0 <= t <= |group|
      invariant MaxColumnsOf(ls) == AssignMax(old(MaxColumnsOf(ls)), group[..t], maxCols)
      invariant Columns(ls) == old(Columns(ls)) && Frames(ls) == old(Frames(ls))
    {
      var g := group[t];
      assert g in group;
      ls[g].maxColumns := maxCols;
      assert group[..t + 1] == group[..t] + [g];
      t := t + 1;
    }
    assert group[..t] == group;
  }

  /**
   * `removeAlldayActiveEvents`: walks the active list, dropping every event
   * whose Julian end day is before the start day of the event at position
   * `k`, and clearing its column bit.
   */
  method RemoveAlldayActiveEvents(ls: seq<EventLayout>, k: nat, active: seq<nat>, colMask: bv64)
    returns (remaining: seq<nat>, mask: bv64)
    requires k < |ls| && InRange(active, |ls|)
    ensures Evicted(remaining, mask)
            == Evict(Recs(ls), Columns(ls), true, Recs(ls)[k], 0, active, colMask)
  {
    ghost var recs, cols := Recs(ls), Columns(ls);
    var e := ls[k].event.rec;
    assert e == recs[k];
    remaining, mask := [], colMask;
    var t := 0;
    while t < |active|
      invariant 0 <= t <= |active| && InRange(active[t..], |ls|)
      invariant EvictFrom(recs, cols, true, e, 0, remaining, active[t..], mask)
                == Evict(recs, cols, true, e, 0, active, colMask)
    {
      var a := active[t];
      assert a in active;
      assert active[t..][1..] == active[t + 1..];
      assert recs[a] == ls[a].event.rec && cols[a] == ls[a].column;
      if ls[a].event.rec.endDay < e.startDay {
        mask := ClearBit(mask, ls[a].column % 64);
      } else {
        remaining := remaining + [a];
      }
      t := t + 1;
      SuffixInRange(active, |ls|, t);
    }
  }

  /**
   * `removeNonAlldayActiveEvents`: walks the active list, dropping every
   * event that, lasting at least `minDur` milliseconds, has ended by the
   * start of the event at position `k`, and clearing its column bit.
   */
  method RemoveNonAlldayActiveEvents(ls: seq<EventLayout>, k: nat, active: seq<nat>, minDur: int,
                                     colMask: bv64) returns (remaining: seq<nat>, mask: bv64)
    requires k < |ls| && InRange(active, |ls|)
    ensures Evicted(remaining, mask)
            == Evict(Recs(ls), Columns(ls), false, Recs(ls)[k], minDur, active, colMask)
  {
    ghost var recs, cols := Recs(ls), Columns(ls);
    var start := ls[k].event.rec.startMillis;
    assert start == recs[k].startMillis;
    remaining, mask := [], colMask;
    var t := 0;
    while t < |active|
      invariant 0 <= t <= |active| && InRange(active[t..], |ls|)
      invariant EvictFrom(recs, cols, false, recs[k], minDur, remaining, active[t..], mask)
                == Evict(recs, cols, false, recs[k], minDur, active, colMask)
    {
      var a := active[t];
      assert a in active;
      assert active[t..][1..] == active[t + 1..];
      assert recs[a] == ls[a].event.rec && cols[a] == ls[a].column;
      var r := ls[a].event.rec;
      var duration := Max(r.endMillis - r.startMillis, minDur);
      if r.startMillis + duration <= start {
        mask := ClearBit(mask, ls[a].column % 64);
      } else {
        remaining := remaining + [a];
      }
      t := t + 1;
      SuffixInRange(active, |ls|, t);
    }
  }

  /** `findFirstZeroBit(colMask)`, with 64 clamped to 63. */
  method FirstFreeColumn(colMask: bv64) returns (col: int)
    ensures col == FreeColumn(colMask)
  {
    col := FindFirstZeroBit(colMask);
    if col == 64 {
      col := 63;
    }
  }

  /**
   * The tail of the sweep's loop body: the first free column (63 when all
   * 64 are taken) goes to the event at position `k`, which joins the active
   * list and the group; `maxCols` grows to the active count.
   */
  method PlaceEvent(ls: seq<EventLayout>, k: nat, active: seq<nat>, group: seq<nat>,
                    colMask: bv64, maxCols: int)
    returns (active': seq<nat>, group': seq<nat>, colMask': bv64, maxCols': int)
    requires k < |ls| && Distinct(ls)
    modifies ls[k]
    ensures PassState(active', group', colMask', maxCols', Columns(ls), MaxColumnsOf(ls))
            == Place(PassState(active, group, colMask, maxCols, old(Columns(ls)), old(MaxColumnsOf(ls))), k)
    ensures Frames(ls) == old(Frames(ls))
  {
    var col := FirstFreeColumn(colMask);
    colMask' := SetBit(colMask, col);
    SetColumn(ls, k, col);
    active' := active + [k];
    group' := group + [k];
    var len := |active'|;
    maxCols' := maxCols;
    if maxCols' < len {
      maxCols' := len;
    }
  }

  /**
   * The head of the sweep's loop body: evicts what has ended before the
   * event at position `k`; if nothing is left active, the group gets its
   * width and mask, width and group start afresh.
   */
  method EvictAndReopen(ls: seq<EventLayout>, k: nat, doAlldayEvents: bool, minDur: int,
                        active: seq<nat>, group: seq<nat>, colMask: bv64, maxCols: int)
    returns (active': seq<nat>, group': seq<nat>, colMask': bv64, maxCols': int)
    requires k < |ls| && Distinct(ls) && InRange(active, |ls|) && InRange(group, |ls|)
    modifies set l | l in ls
    ensures var st := PassState(active, group, colMask, maxCols, old(Columns(ls)), old(MaxColumnsOf(ls)));
            PassState(active', group', colMask', maxCols', Columns(ls), MaxColumnsOf(ls))
            == Reopen(st, Evict(old(Recs(ls)), st.cols, doAlldayEvents, old(Recs(ls))[k], minDur, active, colMask))
    ensures Recs(ls) == old(Recs(ls)) && Frames(ls) == old(Frames(ls))
  {
    ghost var recs := Recs(ls);
    ghost var ev := Evict(recs, Columns(ls), doAlldayEvents, recs[k], minDur, active, colMask);
    if !doAlldayEvents {
      active', colMask' := RemoveNonAlldayActiveEvents(ls, k, active, minDur, colMask);
    } else {
      active', colMask' := RemoveAlldayActiveEvents(ls, k, active, colMask);
      AlldayEvictionIgnoresDuration(recs, Columns(ls), recs[k], minDur, active, colMask);
    }
    assert Evicted(active', colMask') == ev;
    group', maxCols' := group, maxCols;
    if active' == [] {
      SetMaxColumns(ls, group, maxCols);
      maxCols' := 0;
      colMask' := 0;
      group' := [];
    }
  }

  /**
   * One iteration of the sweep's loop: events of the other kind are
   * skipped; otherwise eviction, possibly the close of the group, and
   * placement.
   */
  method VisitEvent(ls: seq<EventLayout>, k: nat, doAlldayEvents: bool, minDur: int,
                    active: seq<nat>, group: seq<nat>, colMask: bv64, maxCols: int)
    returns (active': seq<nat>, group': seq<nat>, colMask': bv64, maxCols': int)
    requires k < |ls| && Distinct(ls) && InRange(active, |ls|) && InRange(group, |ls|)
    modifies set l | l in ls
    ensures PassState(active', group', colMask', maxCols', Columns(ls), MaxColumnsOf(ls))
            == Step(old(Recs(ls)), doAlldayEvents, minDur,
                    PassState(active, group, colMask, maxCols, old(Columns(ls)), old(MaxColumnsOf(ls))), k)
    ensures Recs(ls) == old(Recs(ls)) && Frames(ls) == old(Frames(ls))
  {
    ghost var recs := Recs(ls);
    ghost var st := PassState(active, group, colMask, maxCols, Columns(ls), MaxColumnsOf(ls));
    active', group', colMask', maxCols' := active, group, colMask, maxCols;
    assert recs[k] == ls[k].event.rec;
    if DrawAsAllday(ls[k].event.rec) == doAlldayEvents {
      active', group', colMask', maxCols' := EvictAndReopen(ls, k, doAlldayEvents, minDur,
                                                            active, group, colMask, maxCols);
      active', group', colMask', maxCols' := PlaceEvent(ls, k, active', group', colMask', maxCols');
    }
  }

  /**
   * `doComputePositions`: one sweep over the events of one kind, proved to
   * leave every layout's `column` and `maxColumns` as `Pass` says and to
   * touch nothing else.
   */
  method DoComputePositions(ls: seq<EventLayout>, minimumDurationMillis: int, doAlldayEvents: bool)
    requires Distinct(ls)
    modifies set l | l in ls
    ensures var p := Pass(old(Recs(ls)), old(Columns(ls)), old(MaxColumnsOf(ls)),
                          doAlldayEvents, minimumDurationMillis);
            Columns(ls) == p.cols && MaxColumnsOf(ls) == p.maxes
    ensures Recs(ls) == old(Recs(ls)) && Frames(ls) == old(Frames(ls))
  {
    ghost var recs := Recs(ls);
    ghost var init := Init(Columns(ls), MaxColumnsOf(ls));
    var minDur := minimumDurationMillis;
    if minDur < 0 {
      minDur := 0;
    }
    var active: seq<nat> := [];
    var group: seq<nat> := [];
    var colMask: bv64 := 0;
    var maxCols := 0;
    var k := 0;
    ghost var st := init;
    while k < |ls|
      invariant 0 <= k <= |ls|
      invariant Recs(ls) == recs && Frames(ls) == old(Frames(ls))
      invariant minDur == Max(minimumDurationMillis, 0)
      invariant st == Runs(recs, doAlldayEvents, minDur, init, k)
      invariant st == PassState(active, group, colMask, maxCols, Columns(ls), MaxColumnsOf(ls))
    {
      active, group, colMask, maxCols := VisitEvent(ls, k, doAlldayEvents, minDur,
                                                    active, group, colMask, maxCols);
      st := Step(recs, doAlldayEvents, minDur, st, k);
      k := k + 1;
    }
    SetMaxColumns(ls, group, maxCols);
  }

  /**
   * `computePositions`: lays out the timed events, then the events drawn as
   * all-day, each kind in its own sweep.
   */
  method ComputePositions(ls: seq<EventLayout>, minimumDurationMillis: int)
    requires Distinct(ls)
    modifies set l | l in ls
    ensures var p := Packing.ComputePositions(old(Recs(ls)), old(Columns(ls)), old(MaxColumnsOf(ls)),
                                              minimumDurationMillis);
            Columns(ls) == p.cols && MaxColumnsOf(ls) == p.maxes
    ensures Recs(ls) == old(Recs(ls)) && Frames(ls) == old(Frames(ls))
  {
    DoComputePositions(ls, minimumDurationMillis, false);
    DoComputePositions(ls, minimumDurationMillis, true);
  }
}
