/**
 * The width the packing sweep gives a group. An event of the pass's kind
 * stays active until an event of the kind placed after it starts once it
 * has ended; a group opens at an event that finds nothing active. Each
 * member of a group gets, as its `maxColumns`, the largest number of the
 * group's events active at once, counted right after each member is
 * placed; so all members of one group get the same width.
 */
module PackingPeak {
  import opened Common
  import opened Events
  import opened ColumnMask
  import opened Packing
  import opened PackingProofs

  /** No position occurs twice. */
  predicate NoDup(s: seq<nat>)
  {
    forall i, j :: 0 <= i < |s| && 0 <= j < |s| && i != j ==> s[i] != s[j]
  }

  /**
   * Event `x` has not expired at the start of any event of the pass's kind
   * placed after it and before position `n`.
   */
  predicate AliveThrough(recs: seq<EventRecord>, allDay: bool, md: int, x: nat, n: nat)
    requires x < |recs| && n <= |recs|
  {
    forall y :: x < y < n && Kind(recs, allDay, y) ==> !Expired(allDay, recs[x], recs[y], md)
  }

  /** The events of the pass's kind still active once the first `n` positions are visited. */
  function Live(recs: seq<EventRecord>, allDay: bool, md: int, n: nat): set<nat>
    requires n <= |recs|
  {
    set x: nat | x < n && Kind(recs, allDay, x) && AliveThrough(recs, allDay, md, x, n)
  }

  /** How many events are active right after event `j` is placed, `j` itself included. */
  function Size(recs: seq<EventRecord>, allDay: bool, md: int, j: nat): nat
    requires j < |recs|
  {
    |Live(recs, allDay, md, j + 1)|
  }

  /** Event `j` of the pass's kind finds every earlier event of the kind expired: it opens a group. */
  predicate Opens(recs: seq<EventRecord>, allDay: bool, md: int, j: nat)
    requires j < |recs|
  {
    Kind(recs, allDay, j)
    && forall x: nat {:trigger AliveThrough(recs, allDay, md, x, j + 1)} :: x < j && Kind(recs, allDay, x) ==> !AliveThrough(recs, allDay, md, x, j + 1)
  }

  /**
   * The position of the event that opened the group still open once the
   * first `n` positions are visited, or -1 before any event of the kind.
   */
  function OpenGroup(recs: seq<EventRecord>, allDay: bool, md: int, n: nat): (g: int)
    requires n <= |recs|
    ensures -1 <= g < n
  {
    if n == 0 then -1
    else if Opens(recs, allDay, md, n - 1) then n - 1
    else OpenGroup(recs, allDay, md, n - 1)
  }

  /** The group of event `x`: the position of the event that opened it. */
  function GroupOf(recs: seq<EventRecord>, allDay: bool, md: int, x: nat): (g: int)
    requires x < |recs|
    ensures g <= x
  {
    OpenGroup(recs, allDay, md, x + 1)
  }

  /** The largest `Size` among the members of group `g` below position `n` (0 when it has none). */
  function Peak(recs: seq<EventRecord>, allDay: bool, md: int, g: int, n: nat): (p: int)
    requires n <= |recs|
    ensures p >= 0
  {
    if n == 0 then 0
    else Max(Peak(recs, allDay, md, g, n - 1),
             if Kind(recs, allDay, n - 1) && GroupOf(recs, allDay, md, n - 1) == g
             then Size(recs, allDay, md, n - 1) else 0)
  }

  /** `Peak` is the largest member size of its group, attained when the group has a member. */
  lemma {:induction false} PeakSpec(recs: seq<EventRecord>, allDay: bool, md: int, g: int, n: nat)
    requires n <= |recs|
    ensures forall x: nat {:trigger GroupOf(recs, allDay, md, x)} :: x < n && Kind(recs, allDay, x) && GroupOf(recs, allDay, md, x) == g
              ==> Size(recs, allDay, md, x) <= Peak(recs, allDay, md, g, n)
    ensures (exists x: nat {:trigger GroupOf(recs, allDay, md, x)} :: x < n && Kind(recs, allDay, x) && GroupOf(recs, allDay, md, x) == g)
              ==> exists x: nat {:trigger GroupOf(recs, allDay, md, x)} :: x < n && Kind(recs, allDay, x) && GroupOf(recs, allDay, md, x) == g
                    && Size(recs, allDay, md, x) == Peak(recs, allDay, md, g, n)
    ensures (forall x: nat {:trigger GroupOf(recs, allDay, md, x)} :: x < n && Kind(recs, allDay, x) ==> GroupOf(recs, allDay, md, x) != g)
              ==> Peak(recs, allDay, md, g, n) == 0
  {
    if n > 0 {
      PeakSpec(recs, allDay, md, g, n - 1);
      var m := n - 1;
      if Kind(recs, allDay, m) && GroupOf(recs, allDay, md, m) == g
         && Peak(recs, allDay, md, g, n) == Size(recs, allDay, md, m) {
        assert Kind(recs, allDay, m) && GroupOf(recs, allDay, md, m) == g;
      }
    }
  }

  /** The open group only moves forward. */
  lemma {:induction false} OpenGroupMono(recs: seq<EventRecord>, allDay: bool, md: int, m: nat, n: nat)
    requires m <= n <= |recs|
    ensures OpenGroup(recs, allDay, md, m) <= OpenGroup(recs, allDay, md, n)
    decreases n
  {
    if m < n {
      OpenGroupMono(recs, allDay, md, m, n - 1);
    }
  }

  /** A group that opens after position `n` has no member below `n`. */
  lemma {:induction false} PeakAbove(recs: seq<EventRecord>, allDay: bool, md: int, g: int, n: nat)
    requires n <= |recs| && OpenGroup(recs, allDay, md, n) < g
    ensures Peak(recs, allDay, md, g, n) == 0
    decreases n
  {
    if n > 0 {
      OpenGroupMono(recs, allDay, md, n - 1, n);
      PeakAbove(recs, allDay, md, g, n - 1);
    }
  }

  /** A sequence without repeats is as long as the set of its elements. */
  lemma {:induction false} NoDupCard(s: seq<nat>, S: set<nat>)
    requires NoDup(s) && forall x: nat :: x in s <==> x in S
    ensures |s| == |S|
    decreases |s|
  {
    if s == [] {
      assert forall x: nat :: x !in S;
      assert S == {};
    } else {
      var t := s[1..];
      assert forall i :: 0 <= i < |t| ==> t[i] == s[i + 1];
      assert s[0] !in t;
      assert forall x: nat :: x in t <==> x in S - {s[0]} by {
        forall x: nat ensures x in t <==> x in S - {s[0]} {
          assert x in s <==> x == s[0] || x in t;
        }
      }
      NoDupCard(t, S - {s[0]});
    }
  }

  /** Appending a new position keeps a sequence without repeats. */
  lemma NoDupAppend(s: seq<nat>, v: nat)
    requires NoDup(s) && v !in s
    ensures NoDup(s + [v])
  {
    var t := s + [v];
    forall i, j | 0 <= i < |t| && 0 <= j < |t| && i != j
      ensures t[i] != t[j]
    {
      if i < |s| && j < |s| {
        assert t[i] == s[i] && t[j] == s[j];
      } else if i < |s| {
        assert t[i] == s[i] && t[j] == v;
      } else {
        assert t[i] == v && t[j] == s[j];
      }
    }
  }

  /** The eviction loop keeps the survivors without repeats. */
  lemma {:induction false} EvictFromNoDup(recs: seq<EventRecord>, cols: seq<int>, allDay: bool, e: EventRecord,
                                          minDur: int, kept: seq<nat>, rest: seq<nat>, mask: bv64)
    requires |cols| == |recs| && InRange(rest, |recs|) && NoDup(kept + rest)
    ensures NoDup(EvictFrom(recs, cols, allDay, e, minDur, kept, rest, mask).remaining)
    decreases |rest|
  {
    if rest == [] {
      assert kept + rest == kept;
    } else {
      var a := rest[0];
      assert a in rest;
      SuffixInRange(rest, |recs|, 1);
      if Expired(allDay, recs[a], e, minDur) {
        var s, t := kept + rest, kept + rest[1..];
        assert forall i :: 0 <= i < |t| ==> t[i] == s[if i < |kept| then i else i + 1];
        assert NoDup(t) by {
          forall i, j | 0 <= i < |t| && 0 <= j < |t| && i != j
            ensures t[i] != t[j]
          {
            assert t[i] == s[if i < |kept| then i else i + 1];
            assert t[j] == s[if j < |kept| then j else j + 1];
          }
        }
        EvictFromNoDup(recs, cols, allDay, e, minDur, kept, rest[1..], ClearBit(mask, cols[a] % 64));
      } else {
        assert kept + [a] + rest[1..] == kept + rest;
        EvictFromNoDup(recs, cols, allDay, e, minDur, kept + [a], rest[1..], mask);
      }
    }
  }

  /** Passing position `k` expires an earlier event exactly when `k` is of the kind and it has ended. */
  lemma AliveStep(recs: seq<EventRecord>, allDay: bool, md: int, x: nat, k: nat)
    requires x < k < |recs|
    ensures AliveThrough(recs, allDay, md, x, k + 1)
            <==> AliveThrough(recs, allDay, md, x, k)
                 && (Kind(recs, allDay, k) ==> !Expired(allDay, recs[x], recs[k], md))
  {
  }

  /** The active list holds each event live after `k` positions exactly once. */
  ghost predicate ActiveIsLive(recs: seq<EventRecord>, allDay: bool, md: int, active: seq<nat>, k: nat)
    requires k <= |recs|
  {
    NoDup(active) && forall x: nat :: x in active <==> x in Live(recs, allDay, md, k)
  }

  /** The group list holds the visited members of the open group. */
  ghost predicate GroupIsOpen(recs: seq<EventRecord>, allDay: bool, md: int, group: seq<nat>, k: nat)
    requires k <= |recs|
  {
    forall x: nat {:trigger x in group} {:trigger GroupOf(recs, allDay, md, x)} :: x in group
      <==> x < k && Kind(recs, allDay, x) && GroupOf(recs, allDay, md, x) == OpenGroup(recs, allDay, md, k)
  }

  /** Every visited member of an earlier group holds its group's peak. */
  ghost predicate ClosedHavePeak(recs: seq<EventRecord>, allDay: bool, md: int, maxes: seq<int>, k: nat)
    requires k <= |recs| && |maxes| == |recs|
  {
    forall x: nat {:trigger maxes[x]} :: x < k && Kind(recs, allDay, x)
      && GroupOf(recs, allDay, md, x) != OpenGroup(recs, allDay, md, k)
      ==> maxes[x] == Peak(recs, allDay, md, GroupOf(recs, allDay, md, x), k)
  }

  /**
   * What the sweep's state says about the groups once `k` positions are
   * visited: the active list holds each live event once; the group holds
   * the visited members of the open group; `maxCols` is that group's peak
   * so far; and every member of an earlier group holds its group's peak.
   */
  ghost predicate PeakInv(recs: seq<EventRecord>, allDay: bool, md: int, st: PassState, k: nat)
  {
    k <= |recs| && WF(st, |recs|)
    && ActiveIsLive(recs, allDay, md, st.active, k)
    && GroupIsOpen(recs, allDay, md, st.group, k)
    && st.maxCols == Peak(recs, allDay, md, OpenGroup(recs, allDay, md, k), k)
    && ClosedHavePeak(recs, allDay, md, st.maxes, k)
  }

  /**
   * At an event of the kind, the eviction keeps exactly the live events
   * other than it, without repeats, and keeps none exactly when the event
   * opens a group.
   */
  lemma Survivors(recs: seq<EventRecord>, allDay: bool, md: int, st: PassState, k: nat)
    requires k < |recs| && PeakInv(recs, allDay, md, st, k) && Kind(recs, allDay, k)
    ensures var ev := Evict(recs, st.cols, allDay, recs[k], md, st.active, st.mask);
            NoDup(ev.remaining)
            && (forall x: nat :: x in ev.remaining <==> x in Live(recs, allDay, md, k + 1) && x != k)
            && (ev.remaining == [] <==> Opens(recs, allDay, md, k))
  {
    var ev := Evict(recs, st.cols, allDay, recs[k], md, st.active, st.mask);
    EvictFromSpec(recs, st.cols, allDay, recs[k], md, [], st.active, st.mask);
    assert [] + st.active == st.active;
    EvictFromNoDup(recs, st.cols, allDay, recs[k], md, [], st.active, st.mask);
    forall x: nat
      ensures x in ev.remaining <==> x in Live(recs, allDay, md, k + 1) && x != k
    {
      if x < k {
        AliveStep(recs, allDay, md, x, k);
      }
    }
    if ev.remaining == [] {
      forall x: nat | x < k && Kind(recs, allDay, x)
        ensures !AliveThrough(recs, allDay, md, x, k + 1)
      {
        assert x !in ev.remaining;
      }
    } else {
      var x := ev.remaining[0];
      assert x in ev.remaining;
      assert x < k && Kind(recs, allDay, x) && AliveThrough(recs, allDay, md, x, k + 1);
    }
  }

  /** An event of the other kind leaves the live set as it is. */
  lemma SkipLive(recs: seq<EventRecord>, allDay: bool, md: int, active: seq<nat>, k: nat)
    requires k < |recs| && !Kind(recs, allDay, k) && ActiveIsLive(recs, allDay, md, active, k)
    ensures ActiveIsLive(recs, allDay, md, active, k + 1)
  {
    forall x: nat
      ensures x in Live(recs, allDay, md, k + 1) <==> x in Live(recs, allDay, md, k)
    {
      if x < k {
        AliveStep(recs, allDay, md, x, k);
      }
    }
  }

  /** An event of the other kind leaves the open group and its members as they are. */
  lemma SkipGroup(recs: seq<EventRecord>, allDay: bool, md: int, group: seq<nat>, k: nat)
    requires k < |recs| && !Kind(recs, allDay, k) && GroupIsOpen(recs, allDay, md, group, k)
    ensures OpenGroup(recs, allDay, md, k + 1) == OpenGroup(recs, allDay, md, k)
    ensures GroupIsOpen(recs, allDay, md, group, k + 1)
  {
  }

  /** An event that joins the open group becomes its newest member. */
  lemma JoinGroup(recs: seq<EventRecord>, allDay: bool, md: int, group: seq<nat>, k: nat)
    requires k < |recs| && Kind(recs, allDay, k) && !Opens(recs, allDay, md, k)
    requires GroupIsOpen(recs, allDay, md, group, k)
    ensures OpenGroup(recs, allDay, md, k + 1) == OpenGroup(recs, allDay, md, k)
    ensures GroupIsOpen(recs, allDay, md, group + [k], k + 1)
  {
  }

  /** An event that opens a group is its only member, and every earlier event is in an older group. */
  lemma OpenGroupAlone(recs: seq<EventRecord>, allDay: bool, md: int, k: nat)
    requires k < |recs| && Opens(recs, allDay, md, k)
    ensures OpenGroup(recs, allDay, md, k + 1) == k
    ensures GroupIsOpen(recs, allDay, md, [k], k + 1)
    ensures forall x: nat {:trigger GroupOf(recs, allDay, md, x)} :: x < k && Kind(recs, allDay, x) ==> GroupOf(recs, allDay, md, x) < k
  {
    forall x: nat {:trigger GroupOf(recs, allDay, md, x)} | x < k && Kind(recs, allDay, x)
      ensures GroupOf(recs, allDay, md, x) < k
    {
      OpenGroupMono(recs, allDay, md, x + 1, k);
    }
  }

  /** While the open group stays open, earlier groups keep their peaks. */
  lemma ClosedStay(recs: seq<EventRecord>, allDay: bool, md: int, maxes: seq<int>, k: nat)
    requires k < |recs| && |maxes| == |recs| && ClosedHavePeak(recs, allDay, md, maxes, k)
    requires OpenGroup(recs, allDay, md, k + 1) == OpenGroup(recs, allDay, md, k)
    ensures ClosedHavePeak(recs, allDay, md, maxes, k + 1)
  {
    forall x: nat {:trigger GroupOf(recs, allDay, md, x)} | x < k + 1 && Kind(recs, allDay, x)
      && GroupOf(recs, allDay, md, x) != OpenGroup(recs, allDay, md, k + 1)
      ensures maxes[x] == Peak(recs, allDay, md, GroupOf(recs, allDay, md, x), k + 1)
    {
      var g := GroupOf(recs, allDay, md, x);
      assert Peak(recs, allDay, md, g, k + 1) == Peak(recs, allDay, md, g, k);
    }
  }

  /** When a new group opens, the members of the old one get its peak. */
  lemma ClosedOpen(recs: seq<EventRecord>, allDay: bool, md: int, maxes: seq<int>, group: seq<nat>,
                   maxCols: int, k: nat)
    requires k < |recs| && |maxes| == |recs| && Opens(recs, allDay, md, k)
    requires ClosedHavePeak(recs, allDay, md, maxes, k) && GroupIsOpen(recs, allDay, md, group, k)
    requires maxCols == Peak(recs, allDay, md, OpenGroup(recs, allDay, md, k), k)
    ensures ClosedHavePeak(recs, allDay, md, AssignMax(maxes, group, maxCols), k + 1)
  {
    OpenGroupAlone(recs, allDay, md, k);
    var m := AssignMax(maxes, group, maxCols);
    forall x: nat {:trigger GroupOf(recs, allDay, md, x)} | x < k + 1 && Kind(recs, allDay, x) && GroupOf(recs, allDay, md, x) != k
      ensures m[x] == Peak(recs, allDay, md, GroupOf(recs, allDay, md, x), k + 1)
    {
      var g := GroupOf(recs, allDay, md, x);
      assert Peak(recs, allDay, md, g, k + 1) == Peak(recs, allDay, md, g, k);
    }
  }

  /** An event of the other kind changes nothing. */
  lemma SkipPeak(recs: seq<EventRecord>, allDay: bool, md: int, st: PassState, k: nat)
    requires k < |recs| && PeakInv(recs, allDay, md, st, k) && !Kind(recs, allDay, k)
    ensures PeakInv(recs, allDay, md, Step(recs, allDay, md, st, k), k + 1)
  {
    assert Step(recs, allDay, md, st, k) == st;
    SkipLive(recs, allDay, md, st.active, k);
    SkipGroup(recs, allDay, md, st.group, k);
    ClosedStay(recs, allDay, md, st.maxes, k);
    var g := OpenGroup(recs, allDay, md, k);
    assert Peak(recs, allDay, md, g, k + 1) == Peak(recs, allDay, md, g, k);
  }

  /**
   * An event that opens a group: the old group's members get its peak, and
   * the new group holds the event alone, with width 1.
   */
  lemma OpenPeak(recs: seq<EventRecord>, allDay: bool, md: int, st: PassState, k: nat)
    requires k < |recs| && PeakInv(recs, allDay, md, st, k) && Opens(recs, allDay, md, k)
    ensures PeakInv(recs, allDay, md, Step(recs, allDay, md, st, k), k + 1)
  {
    Survivors(recs, allDay, md, st, k);
    var next := Step(recs, allDay, md, st, k);
    assert next.active == [k] && next.group == [k] && next.maxCols == 1;
    assert next.maxes == AssignMax(st.maxes, st.group, st.maxCols);
    assert Live(recs, allDay, md, k + 1) == {k};
    OpenGroupAlone(recs, allDay, md, k);
    ClosedOpen(recs, allDay, md, st.maxes, st.group, st.maxCols, k);
    PeakAbove(recs, allDay, md, k, k);
  }

  /** An event that joins the open group: it becomes a member and the peak takes its size. */
  lemma JoinPeak(recs: seq<EventRecord>, allDay: bool, md: int, st: PassState, k: nat)
    requires k < |recs| && PeakInv(recs, allDay, md, st, k) && Kind(recs, allDay, k)
    requires !Opens(recs, allDay, md, k)
    ensures PeakInv(recs, allDay, md, Step(recs, allDay, md, st, k), k + 1)
  {
    var ev := Evict(recs, st.cols, allDay, recs[k], md, st.active, st.mask);
    Survivors(recs, allDay, md, st, k);
    var next := Step(recs, allDay, md, st, k);
    assert next.active == ev.remaining + [k] && next.group == st.group + [k];
    assert next.maxCols == Max(st.maxCols, |ev.remaining| + 1);
    assert next.maxes == st.maxes;
    NoDupAppend(ev.remaining, k);
    NoDupCard(next.active, Live(recs, allDay, md, k + 1));
    JoinGroup(recs, allDay, md, st.group, k);
    ClosedStay(recs, allDay, md, st.maxes, k);
    var g := OpenGroup(recs, allDay, md, k);
    assert Peak(recs, allDay, md, g, k + 1) == Max(st.maxCols, Size(recs, allDay, md, k));
  }

  /** One iteration of the loop keeps the invariant. */
  lemma PeakStep(recs: seq<EventRecord>, allDay: bool, md: int, st: PassState, k: nat)
    requires k < |recs| && PeakInv(recs, allDay, md, st, k)
    ensures PeakInv(recs, allDay, md, Step(recs, allDay, md, st, k), k + 1)
  {
    if !Kind(recs, allDay, k) {
      SkipPeak(recs, allDay, md, st, k);
    } else if Opens(recs, allDay, md, k) {
      OpenPeak(recs, allDay, md, st, k);
    } else {
      JoinPeak(recs, allDay, md, st, k);
    }
  }

  lemma PeakStepAt(recs: seq<EventRecord>, allDay: bool, md: int, prev: PassState, next: PassState, k: nat)
    requires 0 < k <= |recs| && PeakInv(recs, allDay, md, prev, k - 1)
    requires next == Step(recs, allDay, md, prev, k - 1)
    ensures PeakInv(recs, allDay, md, next, k)
  {
    PeakStep(recs, allDay, md, prev, k - 1);
  }

  lemma {:induction false} PeakRuns(recs: seq<EventRecord>, allDay: bool, md: int,
                                    cols0: seq<int>, maxes0: seq<int>, k: nat)
    requires k <= |recs| && |cols0| == |recs| && |maxes0| == |recs|
    ensures PeakInv(recs, allDay, md, Runs(recs, allDay, md, Init(cols0, maxes0), k), k)
  {
    if k == 0 {
      assert Live(recs, allDay, md, 0) == {};
    } else {
      PeakRuns(recs, allDay, md, cols0, maxes0, k - 1);
      var prev := Runs(recs, allDay, md, Init(cols0, maxes0), k - 1);
      var next := Runs(recs, allDay, md, Init(cols0, maxes0), k);
      assert next == Step(recs, allDay, md, prev, k - 1);
      PeakStepAt(recs, allDay, md, prev, next, k);
    }
  }

  /** Right after event `j` of the kind is placed, the active list holds `Size(j)` events. */
  lemma SizeIsActiveCount(recs: seq<EventRecord>, allDay: bool, md: int, cols0: seq<int>, maxes0: seq<int>,
                          j: nat)
    requires |cols0| == |recs| && |maxes0| == |recs| && j < |recs|
    ensures |Runs(recs, allDay, md, Init(cols0, maxes0), j + 1).active| == Size(recs, allDay, md, j)
  {
    PeakRuns(recs, allDay, md, cols0, maxes0, j + 1);
    var st := Runs(recs, allDay, md, Init(cols0, maxes0), j + 1);
    NoDupCard(st.active, Live(recs, allDay, md, j + 1));
  }

  /**
   * After a pass, every event of the pass's kind has as `maxColumns` the
   * peak of its group: the largest number of the group's events active at
   * once.
   */
  lemma PassPeak(recs: seq<EventRecord>, cols: seq<int>, maxes: seq<int>, allDay: bool, minDur: int, j: nat)
    requires |cols| == |recs| && |maxes| == |recs| && Kind(recs, allDay, j)
    ensures var md := Max(minDur, 0);
            Pass(recs, cols, maxes, allDay, minDur).maxes[j]
              == Peak(recs, allDay, md, GroupOf(recs, allDay, md, j), |recs|)
  {
    var md := Max(minDur, 0);
    PeakRuns(recs, allDay, md, cols, maxes, |recs|);
  }

  /** Two events of one group get the same `maxColumns`. */
  lemma SameGroupSameWidth(recs: seq<EventRecord>, cols: seq<int>, maxes: seq<int>, allDay: bool, minDur: int,
                           i: nat, j: nat)
    requires |cols| == |recs| && |maxes| == |recs| && Kind(recs, allDay, i) && Kind(recs, allDay, j)
    requires GroupOf(recs, allDay, Max(minDur, 0), i) == GroupOf(recs, allDay, Max(minDur, 0), j)
    ensures Pass(recs, cols, maxes, allDay, minDur).maxes[i] == Pass(recs, cols, maxes, allDay, minDur).maxes[j]
  {
    PassPeak(recs, cols, maxes, allDay, minDur, i);
    PassPeak(recs, cols, maxes, allDay, minDur, j);
  }
}
