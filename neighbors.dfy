/**
 * The neighbour search behind the day view's keyboard navigation, stated on
 * values. The selected layouts are read into a sequence of `Geom`; a link
 * is the position of the neighbour in that sequence.
 *
 * For every selected event the timed search looks, in each of four
 * directions, for the candidate that minimises a distance, breaking ties by
 * a second key and then by list order; it also picks the event to select
 * first from the direction the previous selection came from. The all-day
 * search links events in adjacent columns.
 */
module Neighbors {
  import opened Common

  /** Where the previous selection lies relative to the selection box. */
  const FROM_NONE := 0
  const FROM_ABOVE := 1
  const FROM_BELOW := 2
  const FROM_LEFT := 4
  const FROM_RIGHT := 8

  /** The large number a neighbour distance starts from. */
  const NEIGHBOR_SENTINEL := 10000

  /** The large number the start event's two distances start from. */
  const START_SENTINEL := 100000

  /**
   * What the search reads of a selected layout: its rectangle, cast to
   * `int`, and its event's start and end minute.
   */
  datatype Geom = Geom(left: int, right: int, top: int, bottom: int, startTime: int, endTime: int)

  datatype Dir = Up | Down | Left | Right

  /**
   * How far `center` lies from the span `lo..hi`: 0 when the span
   * straddles it; the high end is tested first.
   */
  function SpanGap(lo: int, hi: int, center: int): int
  {
    if hi <= center then center - hi
    else if lo >= center then lo - center
    else 0
  }

  /** The event's top and bottom clipped to the selection box. */
  function ClipTop(ev: Geom, box: Rect): int
  {
    if ev.top < box.top then box.top else ev.top
  }

  function ClipBottom(ev: Geom, box: Rect): int
  {
    if ev.bottom > box.bottom then box.bottom else ev.bottom
  }

  /** The two rectangles share some horizontal extent. */
  predicate Overlaps(n: Geom, ev: Geom)
  {
    n.left < ev.right && n.right > ev.left
  }

  /**
   * Whether layout `j` is looked at as neighbour of layout `ii` in direction
   * `dir`. Up: it ends by the time `ii` starts and overlaps it horizontally;
   * down: otherwise, it starts once `ii` has ended and overlaps it; right:
   * it lies wholly to the right; left: otherwise, it lies wholly to the
   * left. A layout is never its own neighbour.
   */
  predicate Candidate(gs: seq<Geom>, ii: nat, j: nat, dir: Dir)
    requires ii < |gs| && j < |gs|
  {
    var ev, n := gs[ii], gs[j];
    j != ii &&
    match dir
    case Up => n.endTime <= ev.startTime && Overlaps(n, ev)
    case Down => !(n.endTime <= ev.startTime) && n.startTime >= ev.endTime && Overlaps(n, ev)
    case Right => n.left >= ev.right
    case Left => !(n.left >= ev.right) && n.right <= ev.left
  }

  /**
   * The distance a candidate is ranked by: the gap in minutes above or
   * below, or the vertical distance from the centre of `ii`'s rectangle
   * clipped to the box.
   */
  function Dist(gs: seq<Geom>, box: Rect, ii: nat, j: nat, dir: Dir): int
    requires ii < |gs| && j < |gs|
  {
    var ev, n := gs[ii], gs[j];
    match dir
    case Up => ev.startTime - n.endTime
    case Down => n.startTime - ev.endTime
    case _ => SpanGap(n.top, n.bottom, JavaDiv(ClipTop(ev, box) + ClipBottom(ev, box), 2))
  }

  /**
   * The tie-break: the horizontal distance from `ii`'s centre for up and
   * down, the horizontal gap for left and right.
   */
  function Key(gs: seq<Geom>, ii: nat, j: nat, dir: Dir): int
    requires ii < |gs| && j < |gs|
  {
    var ev, n := gs[ii], gs[j];
    match dir
    case Right => n.left - ev.right
    case Left => ev.left - n.right
    case _ => SpanGap(n.left, n.right, JavaDiv(ev.left + ev.right, 2))
  }

  /** The candidate flags, distances and keys of every layout, for layout `ii` and direction `dir`. */
  function Cands(gs: seq<Geom>, ii: nat, dir: Dir): (c: seq<bool>)
    requires ii < |gs|
    ensures |c| == |gs| && forall j :: 0 <= j < |gs| ==> c[j] == Candidate(gs, ii, j, dir)
  {
    seq(|gs|, j requires 0 <= j < |gs| => Candidate(gs, ii, j, dir))
  }

  function Dists(gs: seq<Geom>, box: Rect, ii: nat, dir: Dir): (d: seq<int>)
    requires ii < |gs|
    ensures |d| == |gs| && forall j :: 0 <= j < |gs| ==> d[j] == Dist(gs, box, ii, j, dir)
  {
    seq(|gs|, j requires 0 <= j < |gs| => Dist(gs, box, ii, j, dir))
  }

  function Keys(gs: seq<Geom>, ii: nat, dir: Dir): (k: seq<int>)
    requires ii < |gs|
    ensures |k| == |gs| && forall j :: 0 <= j < |gs| ==> k[j] == Key(gs, ii, j, dir)
  {
    seq(|gs|, j requires 0 <= j < |gs| => Key(gs, ii, j, dir))
  }

  /**
   * The search state for one direction: the best distance so far and its
   * layout. `npe` records that a tie was met before any candidate was
   * taken, where the code dereferences the null candidate.
   */
  datatype Best = Best(dist: int, at: Option<nat>, npe: bool)

  /** The inner loop's step for candidate `j`, of distance `d[j]` and key `k[j]`. */
  function Offer(d: seq<int>, k: seq<int>, b: Best, j: nat): Best
    requires j < |d| == |k| && (b.at.Some? ==> b.at.value < |k|)
  {
    if d[j] < b.dist then Best(d[j], Some(j), false)
    else if d[j] > b.dist then b
    else match b.at
      case None => b.(npe := true)
      case Some(c) => if k[j] < k[c] then Best(d[j], Some(j), false) else b
  }

  /** The search over positions `0..n-1`, looking only at candidates. */
  function Scan(c: seq<bool>, d: seq<int>, k: seq<int>, n: nat): (b: Best)
    requires |c| == |d| == |k| && n <= |c|
    ensures b.at.Some? ==> b.at.value < n
    decreases n
  {
    if n == 0 then Best(NEIGHBOR_SENTINEL, None, false)
    else
      var b := Scan(c, d, k, n - 1);
      if b.npe || !c[n - 1] then b
      else Offer(d, k, b, n - 1)
  }

  /** The search of direction `dir` for layout `ii` over positions `0..n-1`. */
  function SearchUpTo(gs: seq<Geom>, box: Rect, ii: nat, dir: Dir, n: nat): Best
    requires ii < |gs| && n <= |gs|
  {
    Scan(Cands(gs, ii, dir), Dists(gs, box, ii, dir), Keys(gs, ii, dir), n)
  }

  /** The search of direction `dir` for layout `ii`. */
  function Search(gs: seq<Geom>, box: Rect, ii: nat, dir: Dir): Best
    requires ii < |gs|
  {
    SearchUpTo(gs, box, ii, dir, |gs|)
  }

  /** The neighbour of layout `ii` in direction `dir`. */
  function Neighbor(gs: seq<Geom>, box: Rect, ii: nat, dir: Dir): Option<nat>
    requires ii < |gs|
  {
    Search(gs, box, ii, dir).at
  }

  /** No search of any layout meets the null-candidate tie. */
  predicate NoNullTie(gs: seq<Geom>, box: Rect)
  {
    forall ii, dir :: 0 <= ii < |gs| ==> !Search(gs, box, ii, dir).npe
  }

  /**
   * Position `u` ranks no worse than position `j`: smaller distance, then
   * smaller key, then earlier in the list.
   */
  predicate Precedes(d: seq<int>, k: seq<int>, u: nat, j: nat)
    requires u < |d| == |k| && j < |d|
  {
    d[u] < d[j] || (d[u] == d[j] && (k[u] < k[j] || (k[u] == k[j] && u <= j)))
  }

  /**
   * What the search finds among positions `0..n-1`: with no null-candidate
   * tie, either the candidate that precedes every other candidate, whose
   * distance is below the sentinel, or nothing, when every candidate's
   * distance exceeds the sentinel. The tie happens only at a candidate
   * whose distance is exactly the sentinel.
   */
  lemma {:induction false} ScanSpec(c: seq<bool>, d: seq<int>, k: seq<int>, n: nat)
    requires |c| == |d| == |k| && n <= |c|
    ensures var b := Scan(c, d, k, n);
            (b.npe ==> exists j :: 0 <= j < n && c[j] && d[j] == NEIGHBOR_SENTINEL)
            && (!b.npe && b.at.Some? ==>
                  var u := b.at.value;
                  c[u] && b.dist == d[u] < NEIGHBOR_SENTINEL
                  && forall j :: 0 <= j < n && c[j] ==> Precedes(d, k, u, j))
            && (!b.npe && b.at.None? ==>
                  b.dist == NEIGHBOR_SENTINEL && forall j :: 0 <= j < n && c[j] ==> d[j] > NEIGHBOR_SENTINEL)
    decreases n
  {
    if n > 0 {
      ScanSpec(c, d, k, n - 1);
      var b := Scan(c, d, k, n - 1);
      var m := n - 1;
      if !b.npe && c[m] && b.at.Some? {
        var u := b.at.value;
        if Offer(d, k, b, m).at == Some(m) {
          forall j | 0 <= j < n && c[j]
            ensures Precedes(d, k, m, j)
          {
            if j < m {
              assert Precedes(d, k, u, j);
            }
          }
        }
      }
    }
  }

  /** Once the null-candidate tie is met the search stays stuck, so a search without it never met it. */
  lemma {:induction false} ScanNoTieBefore(c: seq<bool>, d: seq<int>, k: seq<int>, m: nat, n: nat)
    requires |c| == |d| == |k| && m <= n <= |c| && !Scan(c, d, k, n).npe
    ensures !Scan(c, d, k, m).npe
    decreases n - m
  {
    if m < n {
      ScanNoTieBefore(c, d, k, m + 1, n);
    }
  }

  /** Without a null-candidate tie no prefix of a search meets it. */
  lemma SearchNoTieBefore(gs: seq<Geom>, box: Rect, ii: nat, dir: Dir, m: nat)
    requires ii < |gs| && m <= |gs| && NoNullTie(gs, box)
    ensures !SearchUpTo(gs, box, ii, dir, m).npe
  {
    assert !Search(gs, box, ii, dir).npe;
    ScanNoTieBefore(Cands(gs, ii, dir), Dists(gs, box, ii, dir), Keys(gs, ii, dir), m, |gs|);
  }

  /** Without a null-candidate tie, the neighbour is the candidate that precedes every other. */
  lemma NeighborSpec(gs: seq<Geom>, box: Rect, ii: nat, dir: Dir)
    requires ii < |gs| && NoNullTie(gs, box)
    ensures var d, k := Dists(gs, box, ii, dir), Keys(gs, ii, dir);
            match Neighbor(gs, box, ii, dir)
            case Some(u) =>
              u < |gs| && Candidate(gs, ii, u, dir) && Dist(gs, box, ii, u, dir) < NEIGHBOR_SENTINEL
              && forall j :: 0 <= j < |gs| && Candidate(gs, ii, j, dir) ==> Precedes(d, k, u, j)
            case None =>
              forall j :: 0 <= j < |gs| && Candidate(gs, ii, j, dir) ==> Dist(gs, box, ii, j, dir) > NEIGHBOR_SENTINEL
  {
    ScanSpec(Cands(gs, ii, dir), Dists(gs, box, ii, dir), Keys(gs, ii, dir), |gs|);
    assert !Search(gs, box, ii, dir).npe;
  }

  /**
   * The search never ties with a null candidate when no candidate's
   * distance is exactly the sentinel.
   */
  lemma NoNullTieWhenNoSentinel(gs: seq<Geom>, box: Rect)
    requires forall ii, j, dir :: 0 <= ii < |gs| && 0 <= j < |gs| && Candidate(gs, ii, j, dir)
               ==> Dist(gs, box, ii, j, dir) != NEIGHBOR_SENTINEL
    ensures NoNullTie(gs, box)
  {
    forall ii, dir | 0 <= ii < |gs|
      ensures !Search(gs, box, ii, dir).npe
    {
      ScanSpec(Cands(gs, ii, dir), Dists(gs, box, ii, dir), Keys(gs, ii, dir), |gs|);
    }
  }

  /** Precedence is antisymmetric: at most one candidate precedes all others. */
  lemma PrecedesAntisymmetric(d: seq<int>, k: seq<int>, u: nat, v: nat)
    requires u < |d| == |k| && v < |d|
    requires Precedes(d, k, u, v) && Precedes(d, k, v, u)
    ensures u == v
  {
  }

  /**
   * The neighbour is determined: a candidate below the sentinel distance
   * that precedes every candidate is the neighbour found.
   */
  lemma NeighborUnique(gs: seq<Geom>, box: Rect, ii: nat, dir: Dir, v: nat)
    requires ii < |gs| && NoNullTie(gs, box) && v < |gs| && Candidate(gs, ii, v, dir)
    requires Dist(gs, box, ii, v, dir) < NEIGHBOR_SENTINEL
    requires forall j :: 0 <= j < |gs| && Candidate(gs, ii, j, dir)
               ==> Precedes(Dists(gs, box, ii, dir), Keys(gs, ii, dir), v, j)
    ensures Neighbor(gs, box, ii, dir) == Some(v)
  {
    NeighborSpec(gs, box, ii, dir);
    assert Neighbor(gs, box, ii, dir).Some?;
    var u := Neighbor(gs, box, ii, dir).value;
    PrecedesAntisymmetric(Dists(gs, box, ii, dir), Keys(gs, ii, dir), u, v);
  }

  /**
   * No layout is both the up and the down neighbour of another, nor both
   * its left and right neighbour, and none is its own neighbour.
   */
  lemma NeighborsApart(gs: seq<Geom>, box: Rect, ii: nat)
    requires ii < |gs| && NoNullTie(gs, box)
    ensures forall dir :: Neighbor(gs, box, ii, dir) != Some(ii)
    ensures Neighbor(gs, box, ii, Up).Some? && Neighbor(gs, box, ii, Down).Some?
            ==> Neighbor(gs, box, ii, Up) != Neighbor(gs, box, ii, Down)
    ensures Neighbor(gs, box, ii, Left).Some? && Neighbor(gs, box, ii, Right).Some?
            ==> Neighbor(gs, box, ii, Left) != Neighbor(gs, box, ii, Right)
  {
    forall dir
      ensures Neighbor(gs, box, ii, dir) != Some(ii)
    {
      NeighborSpec(gs, box, ii, dir);
    }
    NeighborSpec(gs, box, ii, Up);
    NeighborSpec(gs, box, ii, Down);
    NeighborSpec(gs, box, ii, Left);
    NeighborSpec(gs, box, ii, Right);
  }

  /**
   * The area the previous selection occupied: the previously selected
   * event clipped vertically to the previous box when it still meets that
   * box, else the previous box itself. `kept` says whether the previous
   * selection survives.
   */
  datatype PrevArea = PrevArea(area: Rect, kept: bool)

  function PrevAreaOf(prevSelected: Option<Rect>, prevBox: Rect): (p: PrevArea)
  {
    match prevSelected
    case None => PrevArea(prevBox, false)
    case Some(r) =>
      if r.top >= prevBox.bottom || r.bottom <= prevBox.top
         || r.right <= prevBox.left || r.left >= prevBox.right
      then PrevArea(prevBox, false)
      else PrevArea(Rect(r.left, if r.top < prevBox.top then prevBox.top else r.top,
                         r.right, if r.bottom > prevBox.bottom then prevBox.bottom else r.bottom), true)
  }

  /**
   * The previous selection is kept exactly when it meets the previous box
   * in both axes, and the area always lies vertically within that box.
   */
  lemma PrevAreaSpec(prevSelected: Option<Rect>, prevBox: Rect)
    ensures var p := PrevAreaOf(prevSelected, prevBox);
            (p.kept <==> prevSelected.Some?
                         && prevSelected.value.left < prevBox.right && prevSelected.value.right > prevBox.left
                         && prevSelected.value.top < prevBox.bottom && prevSelected.value.bottom > prevBox.top)
            && (!p.kept ==> p.area == prevBox)
            && (p.kept ==> p.area.left == prevSelected.value.left && p.area.right == prevSelected.value.right)
            && prevBox.top <= p.area.top && p.area.bottom <= prevBox.bottom
  {
  }

  /** The direction the previous area lies in, and the centre the start distances use. */
  datatype Arrival = Arrival(loc: int, center: int)

  function ArrivalFrom(prev: Rect, box: Rect): (a: Arrival)
  {
    if prev.left >= box.right then Arrival(FROM_RIGHT, JavaDiv(prev.top + prev.bottom, 2))
    else if prev.right <= box.left then Arrival(FROM_LEFT, JavaDiv(prev.top + prev.bottom, 2))
    else if prev.bottom <= box.top then Arrival(FROM_ABOVE, JavaDiv(prev.left + prev.right, 2))
    else if prev.top >= box.bottom then Arrival(FROM_BELOW, JavaDiv(prev.left + prev.right, 2))
    else Arrival(FROM_NONE, 0)
  }

  /**
   * The arrival direction is one of the five codes, and it is `FROM_NONE`
   * exactly when the previous area overlaps the box in both axes.
   */
  lemma ArrivalSpec(prev: Rect, box: Rect)
    ensures var a := ArrivalFrom(prev, box);
            a.loc in {FROM_NONE, FROM_ABOVE, FROM_BELOW, FROM_LEFT, FROM_RIGHT}
            && (a.loc == FROM_NONE <==> prev.left < box.right && prev.right > box.left
                                        && prev.bottom > box.top && prev.top < box.bottom)
            && (a.loc == FROM_RIGHT <==> prev.left >= box.right)
  {
  }

  /**
   * How far layout `ev` lies from the previous area, as the pair
   * (distance1, distance2) the start event is chosen by: across and along
   * the arrival direction. Both are 0 when there is no arrival direction.
   */
  function StartDistances(ev: Geom, box: Rect, prev: Rect, a: Arrival): (int, int)
  {
    var top, bottom := ClipTop(ev, box), ClipBottom(ev, box);
    var across :=
      if a.loc == FROM_ABOVE || a.loc == FROM_BELOW then
        (if ev.left >= a.center then ev.left - a.center
         else if ev.right <= a.center then a.center - ev.right else 0)
      else SpanGap(top, bottom, a.center);
    if a.loc == FROM_ABOVE then (across, top - prev.bottom)
    else if a.loc == FROM_BELOW then (across, prev.top - bottom)
    else if a.loc == FROM_LEFT then (across, ev.left - prev.right)
    else if a.loc == FROM_RIGHT then (across, prev.left - ev.right)
    else (0, 0)
  }

  /** `(a1, a2)` is lexicographically smaller than `(b1, b2)`. */
  predicate LexLess(a: (int, int), b: (int, int))
  {
    a.0 < b.0 || (a.0 == b.0 && a.1 < b.1)
  }

  /** Every layout's distance pair. */
  function StartPairs(gs: seq<Geom>, box: Rect, prev: Rect, a: Arrival): (ds: seq<(int, int)>)
    ensures |ds| == |gs| && forall j :: 0 <= j < |gs| ==> ds[j] == StartDistances(gs[j], box, prev, a)
  {
    seq(|gs|, j requires 0 <= j < |gs| => StartDistances(gs[j], box, prev, a))
  }

  /** The start event so far and its two distances. */
  datatype Start = Start(at: nat, d1: int, d2: int)

  /** The choice of the start event over positions `0..n-1`; element 0 by default. */
  function StartScan(ds: seq<(int, int)>, n: nat): (s: Start)
    requires n <= |ds|
    ensures s.at == 0 || s.at < n
    decreases n
  {
    if n == 0 then Start(0, START_SENTINEL, START_SENTINEL)
    else
      var s := StartScan(ds, n - 1);
      if LexLess(ds[n - 1], (s.d1, s.d2)) then Start(n - 1, ds[n - 1].0, ds[n - 1].1) else s
  }

  /** The event the timed search selects first. */
  function StartEvent(gs: seq<Geom>, box: Rect, prev: Rect, a: Arrival): (r: nat)
    ensures |gs| > 0 ==> r < |gs|
  {
    StartScan(StartPairs(gs, box, prev, a), |gs|).at
  }

  /**
   * The start event is the first position whose distance pair is
   * lexicographically least, when that pair is below the sentinels, and
   * position 0 otherwise.
   */
  lemma {:induction false} StartScanSpec(ds: seq<(int, int)>, n: nat)
    requires n <= |ds|
    ensures var s := StartScan(ds, n);
            var sentinel := (START_SENTINEL, START_SENTINEL);
            if exists j :: 0 <= j < n && LexLess(ds[j], sentinel) then
              s.at < n && (s.d1, s.d2) == ds[s.at]
              && (forall j :: 0 <= j < n ==> !LexLess(ds[j], ds[s.at]))
              && (forall j :: 0 <= j < s.at ==> ds[j] != ds[s.at])
            else s.at == 0 && (s.d1, s.d2) == sentinel
    decreases n
  {
    if n > 0 {
      StartScanSpec(ds, n - 1);
      var sentinel := (START_SENTINEL, START_SENTINEL);
      if !exists j :: 0 <= j < n - 1 && LexLess(ds[j], sentinel) {
        if LexLess(ds[n - 1], sentinel) {
          assert forall j :: 0 <= j < n - 1 ==> !LexLess(ds[j], ds[n - 1]);
        }
      }
    }
  }

  /** Without an arrival direction the start event is element 0. */
  lemma StartWithoutArrival(gs: seq<Geom>, box: Rect, prev: Rect, a: Arrival)
    requires a.loc == FROM_NONE && |gs| > 0
    ensures StartEvent(gs, box, prev, a) == 0
  {
    var ds := StartPairs(gs, box, prev, a);
    StartScanSpec(ds, |gs|);
    assert LexLess(ds[0], (START_SENTINEL, START_SENTINEL));
  }

  /**
   * The all-day link of layout `ii` to a layout in column `target` among
   * positions `0..n-1`: the last such layout other than `ii`.
   */
  function LastInColumn(cols: seq<int>, ii: nat, target: int, n: nat): (r: Option<nat>)
    requires n <= |cols|
    ensures r.Some? ==> r.value < n
    decreases n
  {
    if n == 0 then None
    else if n - 1 != ii && cols[n - 1] == target then Some(n - 1)
    else LastInColumn(cols, ii, target, n - 1)
  }

  lemma {:induction false} LastInColumnSpec(cols: seq<int>, ii: nat, target: int, n: nat)
    requires n <= |cols|
    ensures match LastInColumn(cols, ii, target, n)
            case Some(j) => j != ii && cols[j] == target
                            && forall k :: j < k < n && k != ii ==> cols[k] != target
            case None => forall k :: 0 <= k < n && k != ii ==> cols[k] != target
    decreases n
  {
    if n > 0 {
      LastInColumnSpec(cols, ii, target, n - 1);
    }
  }

  /**
   * The all-day start choice over positions `0..n-1`: the last layout in the
   * previously selected column, and the first layout holding the largest
   * other column above -1.
   */
  datatype AllDayStart = AllDayStart(start: Option<nat>, maxPosition: int, maxAt: Option<nat>)

  function AllDayStartScan(cols: seq<int>, startPosition: int, n: nat): (s: AllDayStart)
    requires n <= |cols|
    ensures s.start.Some? ==> s.start.value < n
    ensures s.maxAt.Some? ==> s.maxAt.value < n
    decreases n
  {
    if n == 0 then AllDayStart(None, -1, None)
    else
      var s := AllDayStartScan(cols, startPosition, n - 1);
      var position := cols[n - 1];
      if position == startPosition then s.(start := Some(n - 1))
      else if position > s.maxPosition then s.(maxPosition := position, maxAt := Some(n - 1))
      else s
  }

  /** The layout the all-day search selects. */
  function AllDaySelection(cols: seq<int>, startPosition: int): Option<nat>
  {
    var s := AllDayStartScan(cols, startPosition, |cols|);
    if s.start.Some? then s.start else s.maxAt
  }

  /**
   * The all-day selection is the last layout in the start column when
   * there is one; otherwise the first layout whose column is the largest
   * of those above -1 outside the start column; nothing when there is none.
   */
  lemma {:induction false} AllDayStartSpec(cols: seq<int>, startPosition: int, n: nat)
    requires n <= |cols|
    ensures var s := AllDayStartScan(cols, startPosition, n);
            (match s.start
             case Some(j) => cols[j] == startPosition && forall k :: j < k < n ==> cols[k] != startPosition
             case None => forall k :: 0 <= k < n ==> cols[k] != startPosition)
            && (match s.maxAt
                case Some(j) => cols[j] == s.maxPosition && cols[j] != startPosition
                                && (forall k :: 0 <= k < n && cols[k] != startPosition ==> cols[k] <= cols[j])
                                && (forall k :: 0 <= k < j && cols[k] != startPosition ==> cols[k] < cols[j])
                case None => s.maxPosition == -1
                             && forall k :: 0 <= k < n && cols[k] != startPosition ==> cols[k] <= -1)
    decreases n
  {
    if n > 0 {
      AllDayStartSpec(cols, startPosition, n - 1);
    }
  }
}
