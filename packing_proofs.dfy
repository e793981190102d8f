/**
 * What the packing sweep guarantees: eviction drops exactly the ended
 * events and frees exactly their columns; every event of the pass's kind
 * gets a column in 0..63 below its group width; events of the other kind
 * keep their column and width; and while fewer than 64 events are active
 * the mask is the set of active columns and no two active events share a
 * column.
 */
module PackingProofs {
  import opened Common
  import opened Events
  import opened ColumnMask
  import opened Packing

  /**
   * Some event visited by the eviction loop has ended and held column `c`
   * (as the shift reads it: the low six bits).
   */
  predicate Freed(recs: seq<EventRecord>, cols: seq<int>, allDay: bool, e: EventRecord, minDur: int,
                  rest: seq<nat>, c: int)
    requires |cols| == |recs| && InRange(rest, |recs|)
  {
    exists a :: a in rest && Expired(allDay, recs[a], e, minDur) && cols[a] % 64 == c
  }

  /** Clearing bit `d` clears that bit and no other. */
  lemma ClearBitAt(m: bv64, d: int, c: int)
    requires 0 <= c < 64 && 0 <= d < 64
    ensures Bit(ClearBit(m, d), c) <==> Bit(m, c) && c != d
  {
    if c == d {
      ClearBitSame(m, d);
    } else {
      ClearBitOther(m, d, c);
    }
  }

  /** Setting bit `d` sets that bit and no other. */
  lemma SetBitAt(m: bv64, d: int, c: int)
    requires 0 <= c < 64 && 0 <= d < 64
    ensures Bit(SetBit(m, d), c) <==> Bit(m, c) || c == d
  {
    if c == d {
      SetBitSame(m, d);
    } else {
      SetBitOther(m, d, c);
    }
  }

  /**
   * The eviction loop keeps, in order, the visited events that have not
   * ended, and clears the bit of a column exactly when an ended event held it.
   */
  lemma {:induction false} EvictFromSpec(recs: seq<EventRecord>, cols: seq<int>, allDay: bool, e: EventRecord,
                                         minDur: int, kept: seq<nat>, rest: seq<nat>, mask: bv64)
    requires |cols| == |recs| && InRange(rest, |recs|)
    ensures var r := EvictFrom(recs, cols, allDay, e, minDur, kept, rest, mask);
            |r.remaining| <= |kept| + |rest|
            && (forall x :: x in r.remaining
                   <==> x in kept || (x in rest && !Expired(allDay, recs[x], e, minDur)))
            && (forall c :: 0 <= c < 64 ==>
                   (Bit(r.mask, c) <==> Bit(mask, c) && !Freed(recs, cols, allDay, e, minDur, rest, c)))
    decreases |rest|
  {
    if rest != [] {
      var a := rest[0];
      assert a in rest;
      SuffixInRange(rest, |recs|, 1);
      var tail := rest[1..];
      assert forall x :: x in rest <==> x == a || x in tail;
      if Expired(allDay, recs[a], e, minDur) {
        var m' := ClearBit(mask, cols[a] % 64);
        EvictFromSpec(recs, cols, allDay, e, minDur, kept, tail, m');
        forall c | 0 <= c < 64
          ensures Bit(m', c) <==> Bit(mask, c) && c != cols[a] % 64
        {
          ClearBitAt(mask, cols[a] % 64, c);
        }
        forall c | 0 <= c < 64
          ensures Freed(recs, cols, allDay, e, minDur, rest, c)
                  <==> c == cols[a] % 64 || Freed(recs, cols, allDay, e, minDur, tail, c)
        {
          if Freed(recs, cols, allDay, e, minDur, rest, c) {
            var b :| b in rest && Expired(allDay, recs[b], e, minDur) && cols[b] % 64 == c;
            assert b == a || b in tail;
          }
        }
      } else {
        EvictFromSpec(recs, cols, allDay, e, minDur, kept + [a], tail, mask);
        forall c | 0 <= c < 64
          ensures Freed(recs, cols, allDay, e, minDur, rest, c)
                  <==> Freed(recs, cols, allDay, e, minDur, tail, c)
        {
          if Freed(recs, cols, allDay, e, minDur, rest, c) {
            var b :| b in rest && Expired(allDay, recs[b], e, minDur) && cols[b] % 64 == c;
            assert b in tail;
          }
        }
      }
    }
  }

  /** The event at position `j` is of the kind the pass lays out. */
  predicate Kind(recs: seq<EventRecord>, allDay: bool, j: int)
  {
    0 <= j < |recs| && DrawAsAllday(recs[j]) == allDay
  }

  /** The columns held by the active events. */
  function ActiveCols(st: PassState): set<int>
  {
    set x | x in st.active && x < |st.cols| :: st.cols[x]
  }

  /** Every set bit of the mask is the column of some active event. */
  predicate Held(st: PassState)
  {
    forall c :: 0 <= c < 64 && Bit(st.mask, c) ==> c in ActiveCols(st)
  }

  /**
   * What holds after the loop has visited positions `0..k-1`: the group
   * holds visited events of the pass's kind and contains the active ones;
   * group members have columns in 0..63 below `maxCols`; visited events of
   * the kind outside the group have columns in 0..63 below their width;
   * events of the other kind are untouched; every set bit is held.
   */
  predicate Inv(recs: seq<EventRecord>, allDay: bool, cols0: seq<int>, maxes0: seq<int>,
                st: PassState, k: int)
  {
    k <= |recs| && WF(st, |recs|) && |cols0| == |recs| && |maxes0| == |recs|
    && (forall x :: x in st.active ==> x in st.group)
    && (forall x :: x in st.group ==>
          x < k && Kind(recs, allDay, x) && 0 <= st.cols[x] < 64 && st.cols[x] < st.maxCols)
    && (forall j :: 0 <= j < k && Kind(recs, allDay, j) && j !in st.group ==>
          0 <= st.cols[j] < 64 && st.cols[j] < st.maxes[j])
    && (forall j :: 0 <= j < |recs| && !Kind(recs, allDay, j) ==>
          st.cols[j] == cols0[j] && st.maxes[j] == maxes0[j])
    && Held(st)
  }

  /** The columns `0..z-1`. */
  function Below(z: nat): (r: set<int>)
    ensures forall c :: c in r <==> 0 <= c < z
    ensures |r| == z
  {
    if z == 0 then {} else Below(z - 1) + {z - 1}
  }

  lemma SubsetCard(a: set<int>, b: set<int>)
    requires a <= b
    ensures |a| <= |b|
  {
    assert b == a + (b - a);
    assert a * (b - a) == {};
  }

  lemma {:induction false} ImageCard(xs: seq<nat>, cols: seq<int>)
    ensures |set x | x in xs && x < |cols| :: cols[x]| <= |xs|
  {
    if xs != [] {
      var last := xs[|xs| - 1];
      var init := xs[..|xs| - 1];
      ImageCard(init, cols);
      assert forall x :: x in xs <==> x in init || x == last;
      var small := set x | x in init && x < |cols| :: cols[x];
      var extra: set<int> := if last < |cols| then {cols[last]} else {};
      assert (set x | x in xs && x < |cols| :: cols[x]) <= small + extra;
      SubsetCard(set x | x in xs && x < |cols| :: cols[x], small + extra);
    }
  }

  /**
   * Pigeonhole: when every set bit is held, the first free column is at
   * most the number of active events.
   */
  lemma FreeColumnBound(st: PassState)
    requires Held(st)
    ensures FreeColumn(st.mask) <= FirstZeroBit(st.mask) <= |st.active|
  {
    var z := FirstZeroBit(st.mask);
    HeldBelow(st);
    SubsetCard(Below(z), ActiveCols(st));
    ImageCard(st.active, st.cols);
  }

  /** Every column below the first free one is held by an active event. */
  lemma HeldBelow(st: PassState)
    requires Held(st)
    ensures Below(FirstZeroBit(st.mask)) <= ActiveCols(st)
  {
    FirstZeroBitSpec(st.mask);
    forall c | c in Below(FirstZeroBit(st.mask))
      ensures c in ActiveCols(st)
    {
      assert Bit(st.mask, c);
    }
  }

  lemma InitInv(recs: seq<EventRecord>, allDay: bool, cols0: seq<int>, maxes0: seq<int>)
    requires |cols0| == |recs| && |maxes0| == |recs|
    ensures Inv(recs, allDay, cols0, maxes0, Init(cols0, maxes0), 0)
  {
    forall c | 0 <= c < 64
      ensures !Bit(0, c)
    {
      ZeroHasNoBit(c);
    }
  }

  /** Eviction and the possible close of the group keep the invariant. */
  lemma ReopenInv(recs: seq<EventRecord>, allDay: bool, minDur: int, cols0: seq<int>, maxes0: seq<int>,
                  st: PassState, i: nat)
    requires i < |recs| && Inv(recs, allDay, cols0, maxes0, st, i)
    ensures var ev := Evict(recs, st.cols, allDay, recs[i], minDur, st.active, st.mask);
            Inv(recs, allDay, cols0, maxes0, Reopen(st, ev), i)
  {
    var ev := Evict(recs, st.cols, allDay, recs[i], minDur, st.active, st.mask);
    EvictFromSpec(recs, st.cols, allDay, recs[i], minDur, [], st.active, st.mask);
    if ev.remaining == [] {
      ClosedInv(recs, allDay, cols0, maxes0, st, ev, i);
    } else {
      OpenInv(recs, allDay, minDur, cols0, maxes0, st, ev, i);
    }
  }

  /** Closing the group keeps the invariant. */
  lemma ClosedInv(recs: seq<EventRecord>, allDay: bool, cols0: seq<int>, maxes0: seq<int>,
                  st: PassState, ev: Evicted, i: nat)
    requires Inv(recs, allDay, cols0, maxes0, st, i) && ev.remaining == []
    ensures Inv(recs, allDay, cols0, maxes0, Reopen(st, ev), i)
  {
    forall c | 0 <= c < 64
      ensures !Bit(0, c)
    {
      ZeroHasNoBit(c);
    }
  }

  /** Evicting without closing the group keeps the invariant. */
  lemma OpenInv(recs: seq<EventRecord>, allDay: bool, minDur: int, cols0: seq<int>, maxes0: seq<int>,
                st: PassState, ev: Evicted, i: nat)
    requires i < |recs| && Inv(recs, allDay, cols0, maxes0, st, i) && ev.remaining != []
    requires forall x :: x in ev.remaining <==> x in st.active && !Expired(allDay, recs[x], recs[i], minDur)
    requires forall c :: 0 <= c < 64 ==>
               (Bit(ev.mask, c) <==> Bit(st.mask, c) && !Freed(recs, st.cols, allDay, recs[i], minDur, st.active, c))
    ensures Inv(recs, allDay, cols0, maxes0, Reopen(st, ev), i)
  {
    var b := Reopen(st, ev);
    forall c | 0 <= c < 64 && Bit(b.mask, c)
      ensures c in ActiveCols(b)
    {
      assert c in ActiveCols(st);
      var x :| x in st.active && x < |st.cols| && st.cols[x] == c;
      assert !Freed(recs, st.cols, allDay, recs[i], minDur, st.active, c);
      assert x in ev.remaining;
    }
  }

  /** Placing the event at position `i` keeps the invariant. */
  lemma PlaceInv(recs: seq<EventRecord>, allDay: bool, cols0: seq<int>, maxes0: seq<int>,
                 b: PassState, i: nat)
    requires i < |recs| && Kind(recs, allDay, i) && Inv(recs, allDay, cols0, maxes0, b, i)
    ensures Inv(recs, allDay, cols0, maxes0, Place(b, i), i + 1)
  {
    var col := FreeColumn(b.mask);
    FreeColumnBound(b);
    var r := Place(b, i);
    assert i !in b.group;
    forall c | 0 <= c < 64 && Bit(r.mask, c)
      ensures c in ActiveCols(r)
    {
      SetBitAt(b.mask, col, c);
      if c == col {
        assert i in r.active;
      } else {
        assert c in ActiveCols(b);
        var x :| x in b.active && x < |b.cols| && b.cols[x] == c;
        assert x in r.active && r.cols[x] == c;
      }
    }
  }

  /** One iteration of the loop keeps the invariant. */
  lemma StepInv(recs: seq<EventRecord>, allDay: bool, minDur: int, cols0: seq<int>, maxes0: seq<int>,
                st: PassState, i: nat)
    requires i < |recs| && Inv(recs, allDay, cols0, maxes0, st, i)
    ensures Inv(recs, allDay, cols0, maxes0, Step(recs, allDay, minDur, st, i), i + 1)
  {
    if DrawAsAllday(recs[i]) == allDay {
      var ev := Evict(recs, st.cols, allDay, recs[i], minDur, st.active, st.mask);
      ReopenInv(recs, allDay, minDur, cols0, maxes0, st, i);
      PlaceInv(recs, allDay, cols0, maxes0, Reopen(st, ev), i);
    }
  }

  lemma {:induction false} RunsInv(recs: seq<EventRecord>, allDay: bool, minDur: int,
                                   cols0: seq<int>, maxes0: seq<int>, k: nat)
    requires k <= |recs| && |cols0| == |recs| && |maxes0| == |recs|
    ensures Inv(recs, allDay, cols0, maxes0, Runs(recs, allDay, minDur, Init(cols0, maxes0), k), k)
  {
    if k == 0 {
      InitInv(recs, allDay, cols0, maxes0);
    } else {
      RunsInv(recs, allDay, minDur, cols0, maxes0, k - 1);
      var prev := Runs(recs, allDay, minDur, Init(cols0, maxes0), k - 1);
      var next := Runs(recs, allDay, minDur, Init(cols0, maxes0), k);
      assert next == Step(recs, allDay, minDur, prev, k - 1);
      StepInvAt(recs, allDay, minDur, cols0, maxes0, prev, next, k);
    }
  }

  lemma StepInvAt(recs: seq<EventRecord>, allDay: bool, minDur: int, cols0: seq<int>, maxes0: seq<int>,
                  prev: PassState, next: PassState, k: nat)
    requires 0 < k <= |recs| && Inv(recs, allDay, cols0, maxes0, prev, k - 1)
    requires next == Step(recs, allDay, minDur, prev, k - 1)
    ensures Inv(recs, allDay, cols0, maxes0, next, k)
  {
    StepInv(recs, allDay, minDur, cols0, maxes0, prev, k - 1);
  }

  /**
   * After a pass, every event of the pass's kind has a column in 0..63
   * strictly below its `maxColumns`, also when the 64 columns run out;
   * every event of the other kind keeps its column and `maxColumns`.
   */
  lemma PassPlacement(recs: seq<EventRecord>, cols: seq<int>, maxes: seq<int>, allDay: bool,
                      minDur: int, j: int)
    requires |cols| == |recs| && |maxes| == |recs| && 0 <= j < |recs|
    ensures var p := Pass(recs, cols, maxes, allDay, minDur);
            (DrawAsAllday(recs[j]) == allDay ==> 0 <= p.cols[j] < 64 && p.cols[j] < p.maxes[j])
            && (DrawAsAllday(recs[j]) != allDay ==> p.cols[j] == cols[j] && p.maxes[j] == maxes[j])
  {
    RunsInv(recs, allDay, Max(minDur, 0), cols, maxes, |recs|);
  }

  /**
   * After `computePositions` every event, timed or all-day, has a column in
   * 0..63 strictly below its `maxColumns`.
   */
  lemma ComputePositionsPlacement(recs: seq<EventRecord>, cols: seq<int>, maxes: seq<int>,
                                  minDur: int, j: int)
    requires |cols| == |recs| && |maxes| == |recs| && 0 <= j < |recs|
    ensures var p := ComputePositions(recs, cols, maxes, minDur);
            0 <= p.cols[j] < 64 && p.cols[j] < p.maxes[j]
  {
    var timed := Pass(recs, cols, maxes, false, minDur);
    PassPlacement(recs, cols, maxes, false, minDur, j);
    PassPlacement(recs, timed.cols, timed.maxes, true, minDur, j);
  }
}

module PackingClean {
  import opened Common
  import opened Events
  import opened ColumnMask
  import opened Packing
  import opened PackingProofs

  /**
   * No two active events share a column, and the mask is exactly the set
   * of active columns.
   */
  predicate Clean(st: PassState)
    requires WF(st, |st.cols|)
  {
    (forall x, y :: x in st.active && y in st.active && x != y ==> st.cols[x] != st.cols[y])
    && (forall c :: 0 <= c < 64 ==> (Bit(st.mask, c) <==> c in ActiveCols(st)))
  }

  /**
   * Dropping ended events keeps the mask clean: a kept event's column
   * cannot be freed by an ended one, since active columns are distinct.
   */
  lemma KeepClean(recs: seq<EventRecord>, allDay: bool, e: EventRecord, minDur: int,
                  st: PassState, b: PassState)
    requires WF(st, |recs|) && WF(b, |recs|) && b.cols == st.cols && Clean(st)
    requires forall x :: x in st.active ==> 0 <= st.cols[x] < 64
    requires forall x :: x in b.active <==> x in st.active && !Expired(allDay, recs[x], e, minDur)
    requires forall c :: 0 <= c < 64 ==>
               (Bit(b.mask, c) <==> Bit(st.mask, c) && !Freed(recs, st.cols, allDay, e, minDur, st.active, c))
    ensures Clean(b)
  {
    forall c | 0 <= c < 64
      ensures Bit(b.mask, c) <==> c in ActiveCols(b)
    {
      if c in ActiveCols(b) {
        var x :| x in b.active && x < |b.cols| && b.cols[x] == c;
        assert c in ActiveCols(st);
      }
      if Bit(b.mask, c) {
        assert c in ActiveCols(st);
        var x :| x in st.active && x < |st.cols| && st.cols[x] == c;
        assert x in b.active;
      }
    }
  }

  /** Eviction keeps the mask equal to the set of active columns. */
  lemma CleanReopen(recs: seq<EventRecord>, allDay: bool, minDur: int, cols0: seq<int>, maxes0: seq<int>,
                    st: PassState, i: nat)
    requires i < |recs| && Inv(recs, allDay, cols0, maxes0, st, i) && Clean(st)
    ensures var ev := Evict(recs, st.cols, allDay, recs[i], minDur, st.active, st.mask);
            Clean(Reopen(st, ev))
  {
    var e := recs[i];
    var ev := Evict(recs, st.cols, allDay, e, minDur, st.active, st.mask);
    EvictFromSpec(recs, st.cols, allDay, e, minDur, [], st.active, st.mask);
    if ev.remaining == [] {
      forall c | 0 <= c < 64
        ensures !Bit(0, c)
      {
        ZeroHasNoBit(c);
      }
    } else {
      KeepClean(recs, allDay, e, minDur, st, Reopen(st, ev));
    }
  }

  /** Adding an event in a column no active event holds keeps the mask clean. */
  lemma AddClean(b: PassState, r: PassState, i: nat, col: int)
    requires WF(b, |b.cols|) && WF(r, |b.cols|) && Clean(b) && 0 <= col < 64 && col !in ActiveCols(b)
    requires i < |b.cols| && i !in b.active
    requires r.active == b.active + [i] && r.cols == b.cols[i := col] && r.mask == SetBit(b.mask, col)
    ensures Clean(r)
  {
    assert forall x :: x in r.active <==> x in b.active || x == i;
    forall x | x in b.active
      ensures r.cols[x] == b.cols[x] != col
    {
      assert b.cols[x] in ActiveCols(b);
    }
    forall c | 0 <= c < 64
      ensures Bit(r.mask, c) <==> c in ActiveCols(r)
    {
      SetBitAt(b.mask, col, c);
      if c in ActiveCols(r) {
        var x :| x in r.active && x < |r.cols| && r.cols[x] == c;
        if x != i {
          assert c in ActiveCols(b);
        }
      }
      if c in ActiveCols(b) {
        var x :| x in b.active && x < |b.cols| && b.cols[x] == c;
        assert r.cols[x] == c;
      }
      if c == col {
        assert r.cols[i] == c;
      }
    }
  }

  /**
   * With fewer than 64 active events the first free column is free: the
   * placed event's column differs from every active column, and the mask
   * stays the set of active columns.
   */
  lemma CleanPlace(recs: seq<EventRecord>, allDay: bool, cols0: seq<int>, maxes0: seq<int>,
                   b: PassState, i: nat)
    requires i < |recs| && Kind(recs, allDay, i) && Inv(recs, allDay, cols0, maxes0, b, i)
    requires Clean(b) && |b.active| < 64
    ensures Clean(Place(b, i))
    ensures forall x :: x in b.active ==> Place(b, i).cols[i] != b.cols[x]
  {
    var col := FreeColumn(b.mask);
    FreeColumnBound(b);
    FirstZeroBitSpec(b.mask);
    assert !Bit(b.mask, col) && col !in ActiveCols(b);
    assert i !in b.active;
    AddClean(b, Place(b, i), i, col);
    forall x | x in b.active
      ensures col != b.cols[x]
    {
      assert b.cols[x] in ActiveCols(b);
    }
  }

  /** The number of active events after the loop has placed event `j`. */
  function ActiveAfter(recs: seq<EventRecord>, allDay: bool, minDur: int, cols0: seq<int>, maxes0: seq<int>,
                       k: nat): nat
    requires k <= |recs| && |cols0| == |recs| && |maxes0| == |recs|
  {
    |Runs(recs, allDay, minDur, Init(cols0, maxes0), k).active|
  }

  /** One iteration keeps the mask clean while at most 64 events are active after it. */
  lemma CleanStep(recs: seq<EventRecord>, allDay: bool, minDur: int, cols0: seq<int>, maxes0: seq<int>,
                  prev: PassState, next: PassState, k: nat)
    requires 0 < k <= |recs| && Inv(recs, allDay, cols0, maxes0, prev, k - 1) && Clean(prev)
    requires next == Step(recs, allDay, minDur, prev, k - 1) && |next.active| <= 64
    ensures Clean(next)
  {
    var i := k - 1;
    if DrawAsAllday(recs[i]) == allDay {
      var ev := Evict(recs, prev.cols, allDay, recs[i], minDur, prev.active, prev.mask);
      ReopenInv(recs, allDay, minDur, cols0, maxes0, prev, i);
      CleanReopen(recs, allDay, minDur, cols0, maxes0, prev, i);
      CleanPlace(recs, allDay, cols0, maxes0, Reopen(prev, ev), i);
    }
  }

  /**
   * As long as no more than 64 events are ever active at once, the mask is
   * the set of active columns after every iteration, and active events
   * have pairwise distinct columns.
   */
  lemma {:induction false} CleanRuns(recs: seq<EventRecord>, allDay: bool, minDur: int,
                                     cols0: seq<int>, maxes0: seq<int>, k: nat)
    requires k <= |recs| && |cols0| == |recs| && |maxes0| == |recs|
    requires forall j :: 0 <= j <= k ==> ActiveAfter(recs, allDay, minDur, cols0, maxes0, j) <= 64
    ensures Clean(Runs(recs, allDay, minDur, Init(cols0, maxes0), k))
  {
    if k == 0 {
      forall c | 0 <= c < 64
        ensures !Bit(0, c)
      {
        ZeroHasNoBit(c);
      }
    } else {
      CleanRuns(recs, allDay, minDur, cols0, maxes0, k - 1);
      RunsInv(recs, allDay, minDur, cols0, maxes0, k - 1);
      var prev := Runs(recs, allDay, minDur, Init(cols0, maxes0), k - 1);
      var next := Runs(recs, allDay, minDur, Init(cols0, maxes0), k);
      assert next == Step(recs, allDay, minDur, prev, k - 1);
      assert ActiveAfter(recs, allDay, minDur, cols0, maxes0, k) <= 64;
      CleanStep(recs, allDay, minDur, cols0, maxes0, prev, next, k);
    }
  }

  /**
   * The column `findFirstZeroBit` hands out: the lowest column whose bit is
   * clear, or column 63 when all 64 are taken.
   */
  lemma FreeColumnSpec(mask: bv64)
    ensures var col := FreeColumn(mask);
            0 <= col < 64
            && ((exists c :: 0 <= c < 64 && !Bit(mask, c)) ==>
                  !Bit(mask, col) && forall c :: 0 <= c < col ==> Bit(mask, c))
            && ((forall c :: 0 <= c < 64 ==> Bit(mask, c)) ==> col == 63)
  {
    FirstZeroBitSpec(mask);
  }
}
