/**
 * `DefaultEventRenderer`: the rectangle an event is filled in, with the
 * colour and paint style its attendee status and selection call for; the
 * inset rectangle its text goes in; the sanitising of the text; and the
 * cache of text layouts, which is emptied before each batch of events.
 * The canvas records the rectangles drawn on it, in order. Laying out and
 * drawing the text itself (`getEventLayout`, `drawEventText`) is not part
 * of this model.
 */
module EventRenderer {
  import opened Common
  import opened Events
  import opened Layouts
  import opened RenderingUtils

  const MAX_EVENT_TEXT_LEN := 500

  /** `Paint.Style`. */
  datatype Style = Fill | Stroke | FillAndStroke

  /** The resource values the renderer reads. */
  datatype Resources = Resources(
    eventRectTopMargin: int, eventRectBottomMargin: int, eventRectLeftMargin: int,
    eventRectRightMargin: int, eventRectStrokeWidth: int,
    eventTextTopMargin: int, eventTextBottomMargin: int,
    eventTextLeftMargin: int, eventTextRightMargin: int,
    clickedColor: bv32, pressedColor: bv32)

  /** A rectangle drawn on the canvas, with the paint it was drawn with. */
  datatype DrawnRect = DrawnRect(rect: Rect, color: bv32, style: Style, strokeWidth: int)

  /** The part of `android.graphics.Paint` the renderer sets: an ARGB colour, a style, a stroke. */
  class Paint {
    var color: bv32
    var style: Style
    var antiAlias: bool
    var strokeWidth: int

    constructor(color: bv32, style: Style)
      ensures this.color == color && this.style == style && !antiAlias && strokeWidth == 0
    {
      this.color, this.style := color, style;
      antiAlias, strokeWidth := false, 0;
    }
  }

  /** The canvas, as the record of the rectangles drawn on it. */
  class Canvas {
    var drawn: seq<DrawnRect>

    constructor()
      ensures drawn == []
    {
      drawn := [];
    }
  }

  /** The alpha byte of an ARGB colour (`Paint.getAlpha`). */
  function Alpha(color: bv32): bv8
  {
    (color >> 24) as bv8
  }

  /** The colour with its alpha byte replaced (`Paint.setAlpha`). */
  function WithAlpha(color: bv32, a: bv8): bv32
  {
    (color & 0x00ff_ffff) | ((a as bv32) << 24)
  }

  /** Setting the alpha sets the top byte and keeps the three colour channels. */
  lemma AlphaIsSet(color: bv32, a: bv8)
    ensures Alpha(WithAlpha(color, a)) == a
    ensures WithAlpha(color, a) & 0x00ff_ffff == color & 0x00ff_ffff
  {
  }

  /** Putting the colour's own alpha back gives the colour. */
  lemma RestoreAlpha(color: bv32, a: bv8)
    ensures WithAlpha(WithAlpha(color, a), Alpha(color)) == color
  {
  }

  /** An event's `int` colour as its 32 bits. */
  function ToColor(c: int): bv32
  {
    (c % 0x1_0000_0000) as bv32
  }

  /**
   * The fill colour of an event rectangle: the clicked colour when the
   * event is selected, the declined colour of the event's colour when it
   * is declined, and the event's colour otherwise.
   */
  function RectColor(status: int, isSelectedEvent: bool, eventColor: bv32, clickedColor: bv32): bv32
  {
    if isSelectedEvent then clickedColor
    else if status == ATTENDEE_STATUS_DECLINED then DeclinedColorFromColor(eventColor)
    else eventColor
  }

  /**
   * The paint style of an event rectangle: an outline for an invitation
   * that is not selected, the incoming style for a selected invitation,
   * and filled otherwise.
   */
  function RectStyle(status: int, isSelectedEvent: bool, incoming: Style): Style
  {
    if status == ATTENDEE_STATUS_INVITED then (if isSelectedEvent then incoming else Stroke)
    else FillAndStroke
  }

  /** A selected event is filled in the clicked colour, whatever its status. */
  lemma SelectedUsesClickedColor(status: int, eventColor: bv32, clickedColor: bv32)
    ensures RectColor(status, true, eventColor, clickedColor) == clickedColor
  {
  }

  /**
   * A declined event that is not selected is filled opaque, in its colour
   * blended with white channel by channel; any other unselected event in
   * its own colour.
   */
  lemma DeclinedColorOfUnselected(status: int, eventColor: bv32, clickedColor: bv32)
    ensures var c := RectColor(status, false, eventColor, clickedColor);
            if status == ATTENDEE_STATUS_DECLINED then
              Byte(c, 3) == 0xff && forall k :: 0 <= k < 3 ==> Byte(c, k) == Blend(Byte(eventColor, k))
            else c == eventColor
  {
    DeclinedColorChannels(eventColor);
  }

  /**
   * Only an invitation that is not selected is drawn as an outline; a
   * selected invitation keeps the style the paint had; every other event
   * is filled.
   */
  lemma StyleChoice(status: int, isSelectedEvent: bool, incoming: Style)
    ensures RectStyle(status, isSelectedEvent, incoming) == Stroke
            <==> (status == ATTENDEE_STATUS_INVITED && !isSelectedEvent)
                 || (status == ATTENDEE_STATUS_INVITED && incoming == Stroke)
    ensures status == ATTENDEE_STATUS_INVITED && isSelectedEvent ==>
              RectStyle(status, isSelectedEvent, incoming) == incoming
    ensures status != ATTENDEE_STATUS_INVITED ==> RectStyle(status, isSelectedEvent, incoming) == FillAndStroke
  {
  }

  /** `(int) Math.floor(w / 2.0f)` for an integer stroke width `w`. */
  function FloorHalf(w: int): (h: int)
    ensures 2 * h <= w < 2 * h + 2
  {
    w / 2
  }

  /** `(int) Math.ceil(w / 2.0f)` for an integer stroke width `w`. */
  function CeilHalf(w: int): (h: int)
    ensures 2 * h - 2 < w <= 2 * h && FloorHalf(w) + h == w
  {
    (w + 1) / 2
  }

  /**
   * The text rectangle `setupTextRect` leaves: an empty or inverted
   * rectangle collapses to no size at its top left corner; otherwise each
   * pair of margins is taken off when the rectangle is larger than the two
   * margins together that way.
   */
  function TextRect(r: Rect, res: Resources): (t: Rect)
    ensures r.bottom <= r.top || r.right <= r.left ==> t == Rect(r.left, r.top, r.left, r.top)
    ensures t.top <= t.bottom && t.left <= t.right
    ensures !(r.bottom <= r.top || r.right <= r.left) ==>
              t.top < t.bottom && t.left < t.right
              && (t.top, t.bottom) == (if r.bottom - r.top > res.eventTextTopMargin + res.eventTextBottomMargin
                                       then (r.top + res.eventTextTopMargin, r.bottom - res.eventTextBottomMargin)
                                       else (r.top, r.bottom))
              && (t.left, t.right) == (if r.right - r.left > res.eventTextLeftMargin + res.eventTextRightMargin
                                       then (r.left + res.eventTextLeftMargin, r.right - res.eventTextRightMargin)
                                       else (r.left, r.right))
    ensures res.eventTextTopMargin >= 0 && res.eventTextBottomMargin >= 0
            && res.eventTextLeftMargin >= 0 && res.eventTextRightMargin >= 0 ==>
              r.top <= t.top && r.left <= t.left
              && (r.top < r.bottom && r.left < r.right ==> t.bottom <= r.bottom && t.right <= r.right)
  {
    if r.bottom <= r.top || r.right <= r.left then Rect(r.left, r.top, r.left, r.top)
    else
      var v := if r.bottom - r.top > res.eventTextTopMargin + res.eventTextBottomMargin
               then r.(top := r.top + res.eventTextTopMargin, bottom := r.bottom - res.eventTextBottomMargin)
               else r;
      if v.right - v.left > res.eventTextLeftMargin + res.eventTextRightMargin
      then v.(left := v.left + res.eventTextLeftMargin, right := v.right - res.eventTextRightMargin)
      else v
  }

  /**
   * The regular-expression replacement of `[\t\n],` by `,`: a tab or a
   * newline directly before a comma is dropped, scanning left to right.
   */
  function ReplaceBeforeComma(s: string): (t: string)
    ensures |t| <= |s|
    decreases |s|
  {
    if |s| < 2 then s
    else if (s[0] == '\t' || s[0] == '\n') && s[1] == ',' then [','] + ReplaceBeforeComma(s[2..])
    else [s[0]] + ReplaceBeforeComma(s[1..])
  }

  /** The text without its tabs and newlines. */
  function Printable(s: string): string
    decreases |s|
  {
    if s == [] then []
    else (if s[0] == '\t' || s[0] == '\n' then [] else [s[0]]) + Printable(s[1..])
  }

  /** The replacement only drops tabs and newlines: every other character stays, in order. */
  lemma {:induction false} ReplaceDropsOnlyBlanks(s: string)
    ensures Printable(ReplaceBeforeComma(s)) == Printable(s)
    decreases |s|
  {
    if |s| >= 2 {
      if (s[0] == '\t' || s[0] == '\n') && s[1] == ',' {
        ReplaceDropsOnlyBlanks(s[2..]);
        assert s[1..][1..] == s[2..];
        assert ([','] + ReplaceBeforeComma(s[2..]))[1..] == ReplaceBeforeComma(s[2..]);
      } else {
        ReplaceDropsOnlyBlanks(s[1..]);
        assert ([s[0]] + ReplaceBeforeComma(s[1..]))[1..] == ReplaceBeforeComma(s[1..]);
      }
    }
  }

  /** Text without a comma is left as it is. */
  lemma {:induction false} ReplaceWithoutComma(s: string)
    requires forall i :: 0 <= i < |s| ==> s[i] != ','
    ensures ReplaceBeforeComma(s) == s
    decreases |s|
  {
    if |s| >= 2 {
      ReplaceWithoutComma(s[1..]);
    }
  }

  /** `String.replace('\n', ' ')`. */
  function NewlinesToSpaces(s: string): (t: string)
    ensures |t| == |s|
    ensures forall i :: 0 <= i < |s| ==> t[i] == (if s[i] == '\n' then ' ' else s[i])
    decreases |s|
  {
    if s == [] then []
    else [if s[0] == '\n' then ' ' else s[0]] + NewlinesToSpaces(s[1..])
  }

  /**
   * `drawTextSanitizer`: a tab or newline before a comma is dropped, the
   * text is cut to `maxEventTextLen` characters (to nothing when that is
   * not positive), and the remaining newlines become spaces. Tabs not
   * before a comma are kept.
   */
  function DrawTextSanitizer(s: string, maxEventTextLen: int): (out: string)
    ensures maxEventTextLen <= 0 ==> out == []
    ensures |out| <= Max(maxEventTextLen, 0)
    ensures forall i :: 0 <= i < |out| ==> out[i] != '\n'
    ensures var f := ReplaceBeforeComma(s);
            maxEventTextLen > 0 ==>
              |out| == Min(|f|, maxEventTextLen)
              && forall i :: 0 <= i < |out| ==> out[i] == (if f[i] == '\n' then ' ' else f[i])
  {
    var f := ReplaceBeforeComma(s);
    var cut := if maxEventTextLen <= 0 then [] else if |f| > maxEventTextLen then f[..maxEventTextLen] else f;
    NewlinesToSpaces(cut)
  }

  /**
   * The filled rectangle of an event: inset by half the stroke on each
   * side, the top and bottom margins taken off, and clipped to the visible
   * rows `visibleTop..visibleBot`. `left` and `right` are the rectangle's
   * sides as `drawEvent` set them.
   */
  function FilledRect(top: int, bottom: int, left: int, right: int, res: Resources, visibleTop: int, visibleBot: int): (r: Rect)
    ensures r.top >= visibleTop && r.bottom <= visibleBot
    ensures r.top >= top + res.eventRectTopMargin + FloorHalf(res.eventRectStrokeWidth)
    ensures r.bottom <= bottom - res.eventRectBottomMargin - CeilHalf(res.eventRectStrokeWidth)
    ensures r.right - r.left == right - left - res.eventRectStrokeWidth
  {
    var w := res.eventRectStrokeWidth;
    Rect(left + FloorHalf(w),
         Max(top + res.eventRectTopMargin + FloorHalf(w), visibleTop),
         right - CeilHalf(w),
         Min(bottom - res.eventRectBottomMargin - CeilHalf(w), visibleBot))
  }

  /** The colour an event's rectangle is filled in, before the renderer's alpha is applied. */
  function EventColor(rec: EventRecord, isSelectedEvent: bool, res: Resources): bv32
  {
    RectColor(rec.selfAttendeeStatus, isSelectedEvent, ToColor(rec.color), res.clickedColor)
  }

  /**
   * What `drawEventRect` draws for an event in rectangle `r`: the rectangle
   * in the event's colour at alpha `eventsAlpha` and in its style, then,
   * for a selected event whose selection is drawn, the rectangle filled in
   * the pressed colour.
   */
  function EventRectDraws(rec: EventRecord, r: Rect, res: Resources, eventsAlpha: bv8, incoming: Style,
                          isSelectedEvent: bool, drawSelectedEvent: bool): seq<DrawnRect>
  {
    var w := res.eventRectStrokeWidth;
    [DrawnRect(r, WithAlpha(EventColor(rec, isSelectedEvent, res), eventsAlpha),
               RectStyle(rec.selfAttendeeStatus, isSelectedEvent, incoming), w)]
    + (if isSelectedEvent && drawSelectedEvent then [DrawnRect(r, res.pressedColor, Fill, w)] else [])
  }

  class DefaultEventRenderer {
    const resources: Resources
    /** `mRect`, the rectangle reused for every event. */
    var rect: Rect
    var eventsAlpha: bv8
    /** The cached text layouts, by event, with the width each was laid out for. */
    var layoutMap: map<EventLayout, int>

    constructor(res: Resources)
      ensures resources == res && rect == Rect(0, 0, 0, 0) && eventsAlpha == 255 && layoutMap == map[]
    {
      resources := res;
      rect := Rect(0, 0, 0, 0);
      eventsAlpha := 255;
      layoutMap := map[];
    }

    /** `setEventsAlpha`. */
    method SetEventsAlpha(alpha: bv8)
      modifies this`eventsAlpha
      ensures eventsAlpha == alpha
    {
      eventsAlpha := alpha;
    }

    /** `prepareForEvents`: no text layout stays cached. */
    method PrepareForEvents()
      modifies this`layoutMap
      ensures layoutMap == map[]
      ensures forall l :: l !in layoutMap
    {
      layoutMap := map[];
    }

    /** `setupTextRect` on `rect`. */
    method SetupTextRect()
      modifies this`rect
      ensures rect == TextRect(old(rect), resources)
    {
      var r := rect;
      if r.bottom <= r.top || r.right <= r.left {
        rect := rect.(bottom := r.top, right := r.left);
        return;
      }
      if r.bottom - r.top > resources.eventTextTopMargin + resources.eventTextBottomMargin {
        rect := rect.(top := rect.top + resources.eventTextTopMargin,
                      bottom := rect.bottom - resources.eventTextBottomMargin);
      }
      if r.right - r.left > resources.eventTextLeftMargin + resources.eventTextRightMargin {
        rect := rect.(left := rect.left + resources.eventTextLeftMargin,
                      right := rect.right - resources.eventTextRightMargin);
      }
    }

    /**
     * `drawEventRect`: the event's rectangle is filled once in its colour
     * at the renderer's alpha, in the style its status calls for, and, when
     * it is selected and the selection is to be drawn, filled again in the
     * pressed colour. The paint is left filling, with its colour's alpha
     * restored, anti-aliased only for a selected event.
     */
    method DrawEventRect(event: EventLayout, canvas: Canvas, p: Paint, visibleTop: int, visibleBot: int,
                         isSelectedEvent: bool, drawSelectedEvent: bool)
      modifies this`rect, p, canvas`drawn
      ensures rect == FilledRect(event.top, event.bottom, old(rect.left), old(rect.right), resources, visibleTop, visibleBot)
      ensures canvas.drawn == old(canvas.drawn) + EventRectDraws(event.event.rec, rect, resources, eventsAlpha, old(p.style),
                                                                 isSelectedEvent, drawSelectedEvent)
      ensures p.color == (if isSelectedEvent && drawSelectedEvent then resources.pressedColor
                          else EventColor(event.event.rec, isSelectedEvent, resources))
      ensures p.style == Fill && p.antiAlias == isSelectedEvent && p.strokeWidth == resources.eventRectStrokeWidth
    {
      var rec := event.event.rec;
      var color := ChoosePaint(rec, p, isSelectedEvent);
      p.antiAlias := false;
      var w := resources.eventRectStrokeWidth;
      var floorHalfStroke, ceilHalfStroke := FloorHalf(w), CeilHalf(w);
      rect := rect.(top := Max(event.top + resources.eventRectTopMargin + floorHalfStroke, visibleTop),
                    bottom := Min(event.bottom - resources.eventRectBottomMargin - ceilHalfStroke, visibleBot));
      rect := rect.(left := rect.left + floorHalfStroke, right := rect.right - ceilHalfStroke);
      FillRect(canvas, p, rect, eventsAlpha, color, isSelectedEvent, drawSelectedEvent);
    }

    /**
     * The colour and style switch of `drawEventRect`: the colour to fill in,
     * and the paint's style set as the event's status calls for.
     */
    method ChoosePaint(rec: EventRecord, p: Paint, isSelectedEvent: bool) returns (color: bv32)
      modifies p`style
      ensures color == EventColor(rec, isSelectedEvent, resources)
      ensures p.style == RectStyle(rec.selfAttendeeStatus, isSelectedEvent, old(p.style))
    {
      color := if isSelectedEvent then resources.clickedColor else ToColor(rec.color);
      if rec.selfAttendeeStatus == ATTENDEE_STATUS_INVITED {
        if !isSelectedEvent {
          p.style := Stroke;
        }
      } else {
        if rec.selfAttendeeStatus == ATTENDEE_STATUS_DECLINED && !isSelectedEvent {
          color := DeclinedColorFromColor(color);
        }
        p.style := FillAndStroke;
      }
    }

    /**
     * The drawing tail of `drawEventRect`: `r` is drawn in `color` at alpha
     * `eventsAlpha`, the paint's alpha is put back, and the paint is left
     * filling; a selected event whose selection is drawn is filled again in
     * the pressed colour.
     */
    method FillRect(canvas: Canvas, p: Paint, r: Rect, eventsAlpha: bv8, color: bv32,
                    isSelectedEvent: bool, drawSelectedEvent: bool)
      modifies p, canvas`drawn
      ensures canvas.drawn == old(canvas.drawn) + [DrawnRect(r, WithAlpha(color, eventsAlpha), old(p.style),
                                                             resources.eventRectStrokeWidth)]
                              + (if isSelectedEvent && drawSelectedEvent
                                 then [DrawnRect(r, resources.pressedColor, Fill, resources.eventRectStrokeWidth)]
                                 else [])
      ensures p.color == (if isSelectedEvent && drawSelectedEvent then resources.pressedColor else color)
      ensures p.style == Fill && p.antiAlias == (isSelectedEvent || old(p.antiAlias))
      ensures p.strokeWidth == resources.eventRectStrokeWidth
    {
      p.strokeWidth := resources.eventRectStrokeWidth;
      DrawAtAlpha(canvas, p, r, eventsAlpha, color);
      p.style := Fill;
      if isSelectedEvent {
        if drawSelectedEvent {
          p.color := resources.pressedColor;
          canvas.drawn := canvas.drawn + [DrawnRect(r, p.color, p.style, p.strokeWidth)];
        }
        p.antiAlias := true;
      }
    }

    /**
     * `setColor(color)`, then `r` drawn with the paint's alpha replaced by
     * `eventsAlpha`, then that alpha put back: the paint ends in `color`.
     */
    method DrawAtAlpha(canvas: Canvas, p: Paint, r: Rect, eventsAlpha: bv8, color: bv32)
      modifies p`color, canvas`drawn
      ensures canvas.drawn == old(canvas.drawn) + [DrawnRect(r, WithAlpha(color, eventsAlpha), p.style, p.strokeWidth)]
      ensures p.color == color
    {
      p.color := color;
      var alpha := Alpha(p.color);
      p.color := WithAlpha(p.color, eventsAlpha);
      canvas.drawn := canvas.drawn + [DrawnRect(r, p.color, p.style, p.strokeWidth)];
      p.color := WithAlpha(p.color, alpha);
      RestoreAlpha(color, eventsAlpha);
    }

    /**
     * `drawEvent` up to the text: exactly the draws of `drawEventRect` for
     * the event's sides less the left margin, the paint left as
     * `drawEventRect` leaves it, and then `rect` left as the text
     * rectangle, the event's rectangle less its four margins, inset by
     * `setupTextRect`.
     */
    method DrawEvent(event: EventLayout, canvas: Canvas, p: Paint, visibleTop: int, visibleBot: int,
                     isSelectedEvent: bool, drawSelectedEvent: bool)
      modifies this`rect, p, canvas`drawn
      ensures var fill := FilledRect(event.top, event.bottom, event.left + resources.eventRectLeftMargin, event.right,
                                     resources, visibleTop, visibleBot);
              canvas.drawn == old(canvas.drawn) + EventRectDraws(event.event.rec, fill, resources, eventsAlpha,
                                                                 old(p.style), isSelectedEvent, drawSelectedEvent)
      ensures p.color == (if isSelectedEvent && drawSelectedEvent then resources.pressedColor
                          else EventColor(event.event.rec, isSelectedEvent, resources))
      ensures p.style == Fill && p.antiAlias == isSelectedEvent && p.strokeWidth == resources.eventRectStrokeWidth
      ensures rect == TextRect(Rect(event.left + resources.eventRectLeftMargin, event.top + resources.eventRectTopMargin,
                                    event.right - resources.eventRectRightMargin,
                                    event.bottom - resources.eventRectBottomMargin), resources)
    {
      rect := Rect(event.left + resources.eventRectLeftMargin,
                   Max(event.top + resources.eventRectTopMargin, visibleTop),
                   event.right,
                   Min(event.bottom - resources.eventRectBottomMargin, visibleBot));
      DrawEventRect(event, canvas, p, visibleTop, visibleBot, isSelectedEvent, drawSelectedEvent);
      rect := Rect(event.left + resources.eventRectLeftMargin, event.top + resources.eventRectTopMargin,
                   event.right - resources.eventRectRightMargin, event.bottom - resources.eventRectBottomMargin);
      SetupTextRect();
    }
  }
}
