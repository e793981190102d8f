/**
 * `DayViewScrollingController`: which way a touch gesture scrolls (not yet
 * known, vertically, or horizontally in a direction) and how far it has
 * scrolled in total since the last reset. What it posts on the event bus is
 * recorded, in order, in `posted`. Scroll distances are Java floats; they
 * are modelled as reals, so the totals here are exact sums.
 */
module Scrolling {
  import opened Common

  /** The touch modes: a bit each for vertical and horizontal scrolling. */
  const TOUCH_MODE_INITIAL_STATE: bv32 := 0
  const TOUCH_MODE_VSCROLL: bv32 := 0x20
  const TOUCH_MODE_HSCROLL: bv32 := 0x40

  /** `HorizontalScrollDirection`, with its direction constant. */
  datatype Direction = LeftToRight | RightToLeft
  {
    function DirectionConstant(): (c: int)
      ensures c == 1 || c == -1
    {
      if this == LeftToRight then 1 else -1
    }
  }

  /**
   * `resolveForDistance`: a positive distance scrolls left to right, a
   * negative one right to left, and no distance has no direction.
   */
  function ResolveForDistance(distance: int): (d: Option<Direction>)
    ensures d == Some(LeftToRight) <==> distance > 0
    ensures d == Some(RightToLeft) <==> distance < 0
    ensures d == None <==> distance == 0
  {
    if distance > 0 then Some(LeftToRight)
    else if distance < 0 then Some(RightToLeft)
    else None
  }

  /** A resolved direction's constant is the sign of the distance. */
  lemma ResolvedConstantIsSign(distance: int)
    requires distance != 0
    ensures ResolveForDistance(distance).Some?
    ensures ResolveForDistance(distance).value.DirectionConstant() * distance > 0
    ensures ResolveForDistance(Sign(distance)) == ResolveForDistance(distance)
  {
  }

  function Sign(x: int): (s: int)
    ensures s == -1 || s == 0 || s == 1
    ensures s * x >= 0 && (s == 0 <==> x == 0)
  {
    if x > 0 then 1 else if x < 0 then -1 else 0
  }

  /** What the controller posts on the event bus. */
  datatype BusEvent =
    | HorizontalScrollingStarted(direction: Option<Direction>)
    | Scroll(x: real, y: real, deltaX: real, deltaY: real, cumulativeX: real, cumulativeY: real)

  /** The sum of a sequence of scroll distances. */
  function Sum(s: seq<real>): real
    decreases |s|
  {
    if s == [] then 0.0 else s[0] + Sum(s[1..])
  }

  /** Adding a distance at the end adds it to the sum. */
  lemma {:induction false} SumAppend(s: seq<real>, d: real)
    ensures Sum(s + [d]) == Sum(s) + d
    decreases |s|
  {
    if s != [] {
      assert (s + [d])[1..] == s[1..] + [d];
      SumAppend(s[1..], d);
    }
  }

  class DayViewScrollingController {
    var touchMode: bv32
    var horizontalScrollDirection: Option<Direction>
    var cumulativeScrollX: real
    var cumulativeScrollY: real
    var posted: seq<BusEvent>
    /** The distances `scrolled` was given since the last reset. */
    ghost var deltasX: seq<real>
    ghost var deltasY: seq<real>

    /**
     * The touch mode is one of its three values, and the totals are the
     * sums of the distances scrolled since the last reset.
     */
    ghost predicate Valid()
      reads this
    {
      (touchMode == TOUCH_MODE_INITIAL_STATE || touchMode == TOUCH_MODE_VSCROLL || touchMode == TOUCH_MODE_HSCROLL)
      && cumulativeScrollX == Sum(deltasX) && cumulativeScrollY == Sum(deltasY)
    }

    constructor()
      ensures Valid()
      ensures touchMode == TOUCH_MODE_INITIAL_STATE && horizontalScrollDirection == None
      ensures cumulativeScrollX == 0.0 && cumulativeScrollY == 0.0 && posted == []
    {
      touchMode := TOUCH_MODE_INITIAL_STATE;
      horizontalScrollDirection := None;
      cumulativeScrollX, cumulativeScrollY := 0.0, 0.0;
      posted := [];
      deltasX, deltasY := [], [];
    }

    /** `reset`: back to the initial mode, no direction and zero totals. */
    method Reset()
      modifies this`touchMode, this`horizontalScrollDirection, this`cumulativeScrollX,
               this`cumulativeScrollY, this`deltasX, this`deltasY
      ensures Valid()
      ensures touchMode == TOUCH_MODE_INITIAL_STATE && horizontalScrollDirection == None
      ensures cumulativeScrollX == 0.0 && cumulativeScrollY == 0.0
      ensures !IsHorizontalScrolling() && !IsVerticalScrolling()
    {
      touchMode := TOUCH_MODE_INITIAL_STATE;
      horizontalScrollDirection := None;
      cumulativeScrollX := 0.0;
      cumulativeScrollY := 0.0;
      deltasX, deltasY := [], [];
    }

    /** `isHorizontalScrolling`: the horizontal bit of the touch mode. */
    function IsHorizontalScrolling(): (b: bool)
      reads this
      ensures Valid() ==> (b <==> touchMode == TOUCH_MODE_HSCROLL)
    {
      touchMode & TOUCH_MODE_HSCROLL != 0
    }

    /** `isVerticalScrolling`: the vertical bit of the touch mode. */
    function IsVerticalScrolling(): (b: bool)
      reads this
      ensures Valid() ==> (b <==> touchMode == TOUCH_MODE_VSCROLL)
    {
      touchMode & TOUCH_MODE_VSCROLL != 0
    }

    /** The gesture never scrolls both ways at once. */
    lemma NeverBoth()
      requires Valid()
      ensures !(IsHorizontalScrolling() && IsVerticalScrolling())
    {
    }

    /**
     * `startedHorizontalScrolling`: the gesture scrolls horizontally in
     * `direction`, which is posted.
     */
    method StartedHorizontalScrolling(direction: Option<Direction>)
      requires Valid()
      modifies this`touchMode, this`horizontalScrollDirection, this`posted
      ensures Valid()
      ensures IsHorizontalScrolling() && !IsVerticalScrolling()
      ensures horizontalScrollDirection == direction
      ensures posted == old(posted) + [HorizontalScrollingStarted(direction)]
    {
      touchMode := TOUCH_MODE_HSCROLL;
      horizontalScrollDirection := direction;
      posted := posted + [HorizontalScrollingStarted(direction)];
    }

    /** `startedVerticalScrolling`: the gesture scrolls vertically; the direction is kept. */
    method StartedVerticalScrolling()
      requires Valid()
      modifies this`touchMode
      ensures Valid()
      ensures IsVerticalScrolling() && !IsHorizontalScrolling()
    {
      touchMode := TOUCH_MODE_VSCROLL;
    }

    /**
     * `scrolled`: the distances are added to the totals, and a scroll
     * event carrying the position, the distances and the new totals is
     * posted.
     */
    method Scrolled(x: real, y: real, deltaX: real, deltaY: real)
      requires Valid()
      modifies this`cumulativeScrollX, this`cumulativeScrollY, this`posted, this`deltasX, this`deltasY
      ensures Valid()
      ensures cumulativeScrollX == old(cumulativeScrollX) + deltaX
      ensures cumulativeScrollY == old(cumulativeScrollY) + deltaY
      ensures deltasX == old(deltasX) + [deltaX] && deltasY == old(deltasY) + [deltaY]
      ensures posted == old(posted) + [Scroll(x, y, deltaX, deltaY, cumulativeScrollX, cumulativeScrollY)]
    {
      cumulativeScrollX := cumulativeScrollX + deltaX;
      cumulativeScrollY := cumulativeScrollY + deltaY;
      SumAppend(deltasX, deltaX);
      SumAppend(deltasY, deltaY);
      deltasX, deltasY := deltasX + [deltaX], deltasY + [deltaY];
      posted := posted + [Scroll(x, y, deltaX, deltaY, cumulativeScrollX, cumulativeScrollY)];
    }
  }
}
