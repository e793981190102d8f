/**
 * What `DayView.computeEventRelations` computes, stated on values: for the
 * visible days `first..last`, how many events drawn in the all-day strip
 * cover each day, the largest such count, and each day's earliest hour at
 * which a timed event starts or ends.
 */
module EventRelations {
  import opened Common
  import opened Events

  /** The event has at least one day within `first..last`. */
  predicate Visible(e: EventRecord, first: int, last: int)
  {
    !(e.startDay > last || e.endDay < first)
  }

  /** Event `e` is counted on day `d` of the visible days `first..last`. */
  predicate CoversAllDay(e: EventRecord, first: int, last: int, d: int)
  {
    DrawAsAllday(e) && Max(e.startDay, first) <= d <= Min(e.endDay, last)
  }

  /** How many of the first `n` events are counted on day `d`. */
  function AllDayCount(recs: seq<EventRecord>, first: int, last: int, d: int, n: nat): (c: nat)
    requires n <= |recs|
    ensures c <= n
    decreases n
  {
    if n == 0 then 0
    else AllDayCount(recs, first, last, d, n - 1) + (if CoversAllDay(recs[n - 1], first, last, d) then 1 else 0)
  }

  /** The all-day counts of the `numDays` days from `first`. */
  function AllDayCounts(recs: seq<EventRecord>, first: int, last: int, numDays: nat): (cs: seq<int>)
    ensures |cs| == numDays
    ensures forall d :: 0 <= d < numDays ==> cs[d] == AllDayCount(recs, first, last, first + d, |recs|)
  {
    seq(numDays, d requires 0 <= d < numDays => AllDayCount(recs, first, last, first + d, |recs|))
  }

  /** The largest element, or 0 for no elements. */
  function MaxOf(s: seq<int>): int
    decreases |s|
  {
    if s == [] then 0 else Max(MaxOf(s[..|s| - 1]), s[|s| - 1])
  }

  /**
   * `MaxOf` of non-negative counts is their maximum: no count exceeds it,
   * and it is one of them when there is any.
   */
  lemma {:induction false} MaxOfSpec(s: seq<int>)
    requires forall i :: 0 <= i < |s| ==> s[i] >= 0
    ensures MaxOf(s) >= 0
    ensures forall i :: 0 <= i < |s| ==> s[i] <= MaxOf(s)
    ensures |s| > 0 ==> exists i :: 0 <= i < |s| && s[i] == MaxOf(s)
    decreases |s|
  {
    if s != [] {
      var init := s[..|s| - 1];
      MaxOfSpec(init);
      assert forall i :: 0 <= i < |init| ==> s[i] == init[i];
      if MaxOf(s) != s[|s| - 1] {
        var i :| 0 <= i < |init| && init[i] == MaxOf(init);
        assert s[i] == MaxOf(s);
      }
    }
  }

  /** Raising one count by one raises the maximum to at least that count. */
  lemma {:induction false} MaxOfIncrement(s: seq<int>, k: nat)
    requires k < |s|
    ensures MaxOf(s[k := s[k] + 1]) == Max(MaxOf(s), s[k] + 1)
    decreases |s|
  {
    var t := s[k := s[k] + 1];
    if k < |s| - 1 {
      assert t[..|t| - 1] == s[..|s| - 1][k := s[k] + 1];
      MaxOfIncrement(s[..|s| - 1], k);
      MaxOfAbove(s[..|s| - 1], k);
    } else {
      assert t[..|t| - 1] == s[..|s| - 1];
    }
  }

  lemma {:induction false} MaxOfAbove(s: seq<int>, k: nat)
    requires k < |s|
    ensures s[k] <= MaxOf(s)
    decreases |s|
  {
    if k < |s| - 1 {
      MaxOfAbove(s[..|s| - 1], k);
    }
  }

  /**
   * The largest all-day count is the maximum over the visible days: no day
   * has more, and some day has exactly that many when any day is shown.
   */
  lemma MaxAllDaySpec(recs: seq<EventRecord>, first: int, last: int, numDays: nat)
    ensures var m := MaxOf(AllDayCounts(recs, first, last, numDays));
            m >= 0
            && (forall d :: first <= d < first + numDays ==> AllDayCount(recs, first, last, d, |recs|) <= m)
            && (numDays > 0 ==> exists d :: first <= d < first + numDays && AllDayCount(recs, first, last, d, |recs|) == m)
  {
    var cs := AllDayCounts(recs, first, last, numDays);
    MaxOfSpec(cs);
    forall d | first <= d < first + numDays
      ensures AllDayCount(recs, first, last, d, |recs|) <= MaxOf(cs)
    {
      assert cs[d - first] == AllDayCount(recs, first, last, d, |recs|);
    }
    if numDays > 0 {
      var i :| 0 <= i < |cs| && cs[i] == MaxOf(cs);
      assert AllDayCount(recs, first, last, first + i, |recs|) == MaxOf(cs);
    }
  }

  /** An event with no visible day is counted on no visible day. */
  lemma HiddenNotCounted(e: EventRecord, first: int, last: int, d: int)
    requires !Visible(e, first, last) && first <= d <= last
    ensures !CoversAllDay(e, first, last, d)
  {
  }

  /** The day is counted on exactly when an all-day event covers it. */
  lemma {:induction false} AllDayCountPositive(recs: seq<EventRecord>, first: int, last: int, d: int, n: nat)
    requires n <= |recs|
    ensures AllDayCount(recs, first, last, d, n) > 0
            <==> exists j :: 0 <= j < n && CoversAllDay(recs[j], first, last, d)
    decreases n
  {
    if n > 0 {
      AllDayCountPositive(recs, first, last, d, n - 1);
    }
  }

  /** `counts[k]` is the all-day count of day `first + k` after the first `n` events. */
  predicate CountsAfter(counts: seq<int>, recs: seq<EventRecord>, first: int, last: int, n: nat)
    requires n <= |recs|
  {
    forall k :: 0 <= k < |counts| ==> counts[k] == AllDayCount(recs, first, last, first + k, n)
  }

  /** `has[k]` holds if `has0[k]` did or some of the first `n` events is counted on day `first + k`. */
  predicate HasAfter(has: seq<bool>, has0: seq<bool>, recs: seq<EventRecord>, first: int, last: int, n: nat)
    requires n <= |recs| && |has0| == |has|
  {
    forall k :: 0 <= k < |has| ==> has[k] == (has0[k] || AllDayCount(recs, first, last, first + k, n) > 0)
  }

  /** `hours[k]` is day `first + k`'s earliest hour after the first `n` events, from `hours0[k]`. */
  predicate EarliestAfter(hours: seq<int>, hours0: seq<int>, recs: seq<EventRecord>, first: int, last: int, n: nat)
    requires n <= |recs| && |hours0| == |hours|
  {
    forall k :: 0 <= k < |hours| ==> hours[k] == Earliest(recs, first, last, first + k, n, hours0[k])
  }

  /** Event `n` adds one to the count of every day it is counted on. */
  lemma CountsStep(c0: seq<int>, c1: seq<int>, recs: seq<EventRecord>, first: int, last: int, n: nat)
    requires n < |recs| && CountsAfter(c0, recs, first, last, n) && |c1| == |c0|
    requires forall k :: 0 <= k < |c1| ==>
               c1[k] == c0[k] + (if CoversAllDay(recs[n], first, last, first + k) then 1 else 0)
    ensures CountsAfter(c1, recs, first, last, n + 1)
  {
  }

  /** Event `n` marks every day it is counted on. */
  lemma HasStep(h0: seq<bool>, h1: seq<bool>, has0: seq<bool>, recs: seq<EventRecord>, first: int, last: int, n: nat)
    requires n < |recs| && |has0| == |h0| == |h1| && HasAfter(h0, has0, recs, first, last, n)
    requires forall k :: 0 <= k < |h1| ==> h1[k] == (h0[k] || CoversAllDay(recs[n], first, last, first + k))
    ensures HasAfter(h1, has0, recs, first, last, n + 1)
  {
  }

  /** Event `n` lowers every day's earliest hour as `EarlierHour` says. */
  lemma EarliestStep(e0: seq<int>, e1: seq<int>, hours0: seq<int>, recs: seq<EventRecord>, first: int, last: int, n: nat)
    requires n < |recs| && |hours0| == |e0| == |e1| && EarliestAfter(e0, hours0, recs, first, last, n)
    requires forall k :: 0 <= k < |e1| ==> e1[k] == EarlierHour(recs[n], first, last, first + k, e0[k])
    ensures EarliestAfter(e1, hours0, recs, first, last, n + 1)
  {
  }

  /**
   * One event's effect on day `d`'s earliest hour `h`: a visible timed
   * event lowers it to its start hour on its start day and to its end hour
   * on its end day.
   */
  function EarlierHour(e: EventRecord, first: int, last: int, d: int, h: int): int
  {
    if !Visible(e, first, last) || DrawAsAllday(e) then h
    else
      var h1 := if e.startDay == d then Min(h, JavaDiv(e.startTime, 60)) else h;
      if e.endDay == d then Min(h1, JavaDiv(e.endTime, 60)) else h1
  }

  /** Day `d`'s earliest hour after the first `n` events, from `h0`. */
  function Earliest(recs: seq<EventRecord>, first: int, last: int, d: int, n: nat, h0: int): int
    requires n <= |recs|
    decreases n
  {
    if n == 0 then h0
    else EarlierHour(recs[n - 1], first, last, d, Earliest(recs, first, last, d, n - 1, h0))
  }

  /** A visible timed event touching day `d` at hour `hour`, as start or end. */
  predicate TimedHourOn(e: EventRecord, first: int, last: int, d: int, hour: int)
  {
    Visible(e, first, last) && !DrawAsAllday(e)
    && ((e.startDay == d && hour == JavaDiv(e.startTime, 60))
        || (e.endDay == d && hour == JavaDiv(e.endTime, 60)))
  }

  /**
   * The earliest hour is the minimum of its start value and the hours at
   * which the visible timed events start or end on that day: no such hour
   * is lower, and it is the start value or one of those hours.
   */
  lemma {:induction false} EarliestSpec(recs: seq<EventRecord>, first: int, last: int, d: int, n: nat, h0: int)
    requires n <= |recs|
    ensures var h := Earliest(recs, first, last, d, n, h0);
            h <= h0
            && (forall j, hour :: 0 <= j < n && TimedHourOn(recs[j], first, last, d, hour) ==> h <= hour)
            && (h == h0 || exists j :: 0 <= j < n && TimedHourOn(recs[j], first, last, d, h))
    decreases n
  {
    if n > 0 {
      EarliestSpec(recs, first, last, d, n - 1, h0);
    }
  }
}
