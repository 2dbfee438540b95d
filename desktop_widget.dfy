/**
 * The floating desktop widget every widget window derives from: a content area
 * inside a transparent border, which can be dragged and resized by its edges
 * when unlocked, keeps its content size within a minimum, and remembers its
 * size and (at most twice a second) its position in its configuration.
 */
module Desktop {
  import opened Base
  import opened Geometry

  /** The transparent border around the content, holding the function buttons. */
  const Margin := 60

  /** How close to a side of the content the pointer must be to grab that side. */
  const EdgeMargin := 10

  /** The smallest width and height a resize leaves, and the smallest content size. */
  const MinWidth := 200
  const MinHeight := 100

  /** Position saves are at least this many milliseconds apart. */
  const SaveDebounceMs := 500

  /** The slack around the content within which the pointer still counts as inside. */
  const HoverTolerance := 2

  /** The gap kept between the default position and the right side of the screen. */
  const DefaultRightGap := 50

  /**
   * The edge of a `width` × `height` content area under `p` (in content
   * coordinates): corners first, then left, right, top and bottom.
   * A side is grabbed exactly when the pointer is near it, except that left wins
   * over right and top over bottom on an area narrower than two margins.
   */
  function CursorEdge(p: Point, width: int, height: int, margin: int): (r: Option<Edge>)
    ensures r.None? <==> !NearLeft(p, margin) && !NearRight(p, width, margin) && !NearTop(p, margin) && !NearBottom(p, height, margin)
    ensures r.Some? ==> (r.value.HasLeft() <==> NearLeft(p, margin))
    ensures r.Some? ==> (r.value.HasRight() <==> NearRight(p, width, margin) && !NearLeft(p, margin))
    ensures r.Some? ==> (r.value.HasTop() <==> NearTop(p, margin))
    ensures r.Some? ==> (r.value.HasBottom() <==> NearBottom(p, height, margin) && !NearTop(p, margin))
  {
    if p.x <= margin && p.y <= margin then Some(TopLeft)
    else if p.x >= width - margin && p.y <= margin then Some(TopRight)
    else if p.x <= margin && p.y >= height - margin then Some(BottomLeft)
    else if p.x >= width - margin && p.y >= height - margin then Some(BottomRight)
    else if p.x <= margin then Some(Left)
    else if p.x >= width - margin then Some(Right)
    else if p.y <= margin then Some(Top)
    else if p.y >= height - margin then Some(Bottom)
    else None
  }

  /** The window geometry a resize by `edge` gives, `delta` away from where the gesture started on `g0`. */
  function ResizedGeometry(edge: Edge, g0: Rect, delta: Point): Rect
  {
    match edge
    case Right => Rect(g0.x, g0.y, Max(MinWidth, g0.w + delta.x), g0.h)
    case Bottom => Rect(g0.x, g0.y, g0.w, Max(MinHeight, g0.h + delta.y))
    case BottomRight => Rect(g0.x, g0.y, Max(MinWidth, g0.w + delta.x), Max(MinHeight, g0.h + delta.y))
    case Left => Rect(g0.x + delta.x, g0.y, Max(MinWidth, g0.w - delta.x), g0.h)
    case Top => Rect(g0.x, g0.y + delta.y, g0.w, Max(MinHeight, g0.h - delta.y))
    case TopLeft => Rect(g0.x + delta.x, g0.y + delta.y, Max(MinWidth, g0.w - delta.x), Max(MinHeight, g0.h - delta.y))
    case TopRight => Rect(g0.x, g0.y + delta.y, Max(MinWidth, g0.w + delta.x), Max(MinHeight, g0.h - delta.y))
    case BottomLeft => Rect(g0.x + delta.x, g0.y, Max(MinWidth, g0.w - delta.x), Max(MinHeight, g0.h + delta.y))
  }

  /**
   * A resize changes only the extents its edge names, never below the minimum,
   * and moves the origin by the full pointer movement along a grabbed left or top side.
   */
  lemma ResizedGeometrySides(edge: Edge, g0: Rect, delta: Point)
    ensures var r := ResizedGeometry(edge, g0, delta);
      && r.x == g0.x + (if edge.HasLeft() then delta.x else 0)
      && r.y == g0.y + (if edge.HasTop() then delta.y else 0)
      && r.w == (if edge.HasRight() then Max(MinWidth, g0.w + delta.x)
                 else if edge.HasLeft() then Max(MinWidth, g0.w - delta.x)
                 else g0.w)
      && r.h == (if edge.HasBottom() then Max(MinHeight, g0.h + delta.y)
                 else if edge.HasTop() then Max(MinHeight, g0.h - delta.y)
                 else g0.h)
  {
  }

  /** A resize by a side keeps that extent at least the minimum. */
  lemma ResizedMinimum(edge: Edge, g0: Rect, delta: Point)
    ensures edge.HasLeft() || edge.HasRight() ==> ResizedGeometry(edge, g0, delta).w >= MinWidth
    ensures edge.HasTop() || edge.HasBottom() ==> ResizedGeometry(edge, g0, delta).h >= MinHeight
  {
    ResizedGeometrySides(edge, g0, delta);
  }

  /** Dragging a left or top side keeps the opposite side where it was, as long as the minimum is not reached. */
  lemma ResizedOppositeFixed(edge: Edge, g0: Rect, delta: Point)
    ensures edge.HasLeft() && g0.w - delta.x >= MinWidth ==>
      var r := ResizedGeometry(edge, g0, delta); r.x + r.w == g0.x + g0.w
    ensures edge.HasTop() && g0.h - delta.y >= MinHeight ==>
      var r := ResizedGeometry(edge, g0, delta); r.y + r.h == g0.y + g0.h
  {
    ResizedGeometrySides(edge, g0, delta);
  }

  /** Past the minimum, a left or top resize pushes the opposite side outwards: the origin still follows the pointer. */
  lemma ResizedDrifts(edge: Edge, g0: Rect, delta: Point)
    ensures edge.HasLeft() && g0.w - delta.x < MinWidth ==>
      var r := ResizedGeometry(edge, g0, delta); r.w == MinWidth && r.x + r.w == g0.x + delta.x + MinWidth
    ensures edge.HasTop() && g0.h - delta.y < MinHeight ==>
      var r := ResizedGeometry(edge, g0, delta); r.h == MinHeight && r.y + r.h == g0.y + delta.y + MinHeight
  {
    ResizedGeometrySides(edge, g0, delta);
  }

  /** The content extent for a window extent: the window less both borders, at least `minimum`. */
  function ContentExtent(total: int, minimum: int): (c: int)
    ensures c >= minimum
    ensures total - 2 * Margin >= minimum ==> c == total - 2 * Margin
    ensures total - 2 * Margin < minimum ==> c == minimum
  {
    Max(minimum, total - 2 * Margin)
  }

  /** A window sized around a content extent at least the minimum gives that same extent back. */
  lemma ContentExtentRoundTrip(content: int, minimum: int)
    requires content >= minimum
    ensures ContentExtent(content + 2 * Margin, minimum) == content
  {
  }

  /** A `widget_position` or `widget_size` entry of the configuration: missing, a two-element list, or something else. */
  datatype PairEntry = Absent | Pair(a: int, b: int) | Malformed

  /**
   * Where the widget goes for a position entry on a `screenW` × `screenH` screen,
   * given its window size; `None` when the entry is there but not a pair, and the
   * window stays where it is.
   */
  function ConfiguredPosition(entry: PairEntry, screenW: int, screenH: int, w: int, h: int): (r: Option<Point>)
    ensures r.None? <==> entry.Malformed?
  {
    match entry
    case Pair(x, y) => Some(Point(ClampAxis(x, screenW, w), ClampAxis(y, screenH, h)))
    case Absent => Some(Point(screenW - w - DefaultRightGap, (screenH - h) / 2))
    case Malformed => None
  }

  /** A configured position keeps the window on the screen when the window fits. */
  lemma ConfiguredOnScreen(a: int, b: int, screenW: int, screenH: int, w: int, h: int)
    requires w <= screenW && h <= screenH
    ensures var p := ConfiguredPosition(Pair(a, b), screenW, screenH, w, h).value;
      0 <= p.x <= screenW - w && 0 <= p.y <= screenH - h
  {
  }

  /** A saved position with the window on the screen is restored exactly. */
  lemma ConfiguredRestores(p: Point, screenW: int, screenH: int, w: int, h: int)
    requires 0 <= p.x <= screenW - w && 0 <= p.y <= screenH - h
    ensures ConfiguredPosition(Pair(p.x, p.y), screenW, screenH, w, h) == Some(p)
  {
  }

  /** Without a configured position the window sits 50 pixels from the right side of the screen, centred vertically (an odd leftover pixel goes below). */
  lemma DefaultPosition(screenW: int, screenH: int, w: int, h: int)
    ensures var p := ConfiguredPosition(Absent, screenW, screenH, w, h).value;
      p.x + w + DefaultRightGap == screenW && 0 <= (screenH - h) - 2 * p.y <= 1
  {
  }

  /** The time of the last position save after a move at `now`. */
  function NextSaveTime(last: int, now: int): int
  {
    if now - last > SaveDebounceMs then now else last
  }

  /** The times at which a run of moves at `times`, after a save at `last`, saves the position. */
  function SaveTimes(last: int, times: seq<int>): (saves: seq<int>)
    ensures forall i :: 0 <= i < |saves| ==> saves[i] in times
    decreases |times|
  {
    if times == [] then []
    else
      var next := NextSaveTime(last, times[0]);
      if next == last then SaveTimes(last, times[1..]) else [next] + SaveTimes(next, times[1..])
  }

  /** The last save time after `MoveEvent` has run at each of `times` in turn, starting from `last`. */
  function LastSaveAfter(last: int, times: seq<int>): int
    decreases |times|
  {
    if times == [] then last else LastSaveAfter(NextSaveTime(last, times[0]), times[1..])
  }

  /** A run of moves leaves the last save time at the last of `SaveTimes`, or unchanged when nothing saved. */
  lemma {:induction false} SaveTimesLast(last: int, times: seq<int>)
    ensures var saves := SaveTimes(last, times);
      LastSaveAfter(last, times) == if saves == [] then last else saves[|saves| - 1]
    decreases |times|
  {
    if times != [] {
      var next := NextSaveTime(last, times[0]);
      SaveTimesLast(next, times[1..]);
    }
  }

  /** Saves are more than 500 ms after the last save and more than 500 ms apart from each other. */
  lemma {:induction false} SaveTimesSpaced(last: int, times: seq<int>)
    ensures var saves := SaveTimes(last, times);
      && (saves != [] ==> saves[0] - last > SaveDebounceMs)
      && forall i :: 0 <= i < |saves| - 1 ==> saves[i + 1] - saves[i] > SaveDebounceMs
    decreases |times|
  {
    if times != [] {
      if times[0] - last > SaveDebounceMs {
        SaveTimesSpaced(times[0], times[1..]);
      } else {
        SaveTimesSpaced(last, times[1..]);
      }
    }
  }

  /** Moves spaced more than 500 ms apart (after the last save) each save. */
  lemma {:induction false} SaveTimesAll(last: int, times: seq<int>)
    requires times != [] ==> times[0] - last > SaveDebounceMs
    requires forall i :: 0 <= i < |times| - 1 ==> times[i + 1] - times[i] > SaveDebounceMs
    ensures SaveTimes(last, times) == times
    decreases |times|
  {
    if times != [] {
      SaveTimesAll(times[0], times[1..]);
    }
  }

  /** `event.buttons()` during a move: none, exactly the left button, or any other combination. */
  datatype Buttons = NoButton | LeftOnly | OtherButtons

  /** Where a resize gesture started: the window geometry and the pointer's screen position. */
  datatype Anchor = Anchor(geom: Rect, pos: Point)

  /** The pointer, in window coordinates, lies on the content area (which starts at the border). */
  predicate InContent(p: Point, contentWidth: int, contentHeight: int)
  {
    Margin <= p.x < Margin + contentWidth && Margin <= p.y < Margin + contentHeight
  }

  /** The pointer lies on the content area widened by the hover tolerance. */
  predicate NearContent(p: Point, contentWidth: int, contentHeight: int)
  {
    && Margin - HoverTolerance <= p.x < Margin + contentWidth + HoverTolerance
    && Margin - HoverTolerance <= p.y < Margin + contentHeight + HoverTolerance
  }

  /** The window state of a desktop widget that its event handlers read and change. */
  class DesktopWidget {
    /** The window's geometry on the screen (frameless, so the frame is the window). */
    var geom: Rect
    var contentWidth: int
    var contentHeight: int
    var isLocked: bool
    /** The pointer's offset from the window origin while dragging. */
    var dragPosition: Option<Point>
    var resizeEdge: Option<Edge>
    /** `initial_geom` and `initial_pos`, present from the first resize step of a gesture until release. */
    var anchor: Option<Anchor>
    var mouseInside: bool
    /** When the pointer last came onto the content, in milliseconds. */
    var hoverStart: int
    /** When the position was last saved, in milliseconds. */
    var lastSaveTime: int
    /** The configuration's `widget_size` and `widget_position` as last saved. */
    var savedSize: Option<(int, int)>
    var savedPosition: Option<Point>

    /**
     * A new widget: content of the configured size (or `size` when none is
     * configured), the border around it, placed by `SetPositionFromConfig`,
     * locked and with nothing grabbed.
     */
    constructor(size: (int, int), sizeEntry: PairEntry, positionEntry: PairEntry, screenW: int, screenH: int)
      ensures contentWidth == (if sizeEntry.Pair? then sizeEntry.a else size.0)
      ensures contentHeight == (if sizeEntry.Pair? then sizeEntry.b else size.1)
      ensures geom.w == contentWidth + 2 * Margin && geom.h == contentHeight + 2 * Margin
      ensures var p := ConfiguredPosition(positionEntry, screenW, screenH, geom.w, geom.h);
        geom.TopLeft() == (if p.Some? then p.value else Point(0, 0))
      ensures isLocked && dragPosition.None? && resizeEdge.None? && anchor.None?
      ensures !mouseInside && lastSaveTime == 0
      ensures savedSize.None? && savedPosition.None?
    {
      var cw, ch := size.0, size.1;
      if sizeEntry.Pair? {
        cw, ch := sizeEntry.a, sizeEntry.b;
      }
      contentWidth, contentHeight := cw, ch;
      geom := Rect(0, 0, cw + 2 * Margin, ch + 2 * Margin);
      isLocked := true;
      dragPosition := None;
      resizeEdge := None;
      anchor := None;
      mouseInside := false;
      hoverStart := 0;
      lastSaveTime := 0;
      savedSize := None;
      savedPosition := None;
      new;
      SetPositionFromConfig(positionEntry, screenW, screenH);
    }

    /** `set_position_from_config`: moves the window to its configured or default position. */
    method SetPositionFromConfig(entry: PairEntry, screenW: int, screenH: int)
      modifies this
      ensures var p := ConfiguredPosition(entry, screenW, screenH, old(geom).w, old(geom).h);
        geom == (if p.Some? then Rect(p.value.x, p.value.y, old(geom).w, old(geom).h) else old(geom))
      ensures contentWidth == old(contentWidth) && contentHeight == old(contentHeight)
      ensures isLocked == old(isLocked) && dragPosition == old(dragPosition) && resizeEdge == old(resizeEdge)
      ensures anchor == old(anchor) && mouseInside == old(mouseInside) && hoverStart == old(hoverStart)
      ensures lastSaveTime == old(lastSaveTime) && savedSize == old(savedSize) && savedPosition == old(savedPosition)
    {
      match entry {
        case Pair(x, y) =>
          geom := Rect(ClampAxis(x, screenW, geom.w), ClampAxis(y, screenH, geom.h), geom.w, geom.h);
        case Absent =>
          geom := Rect(screenW - geom.w - DefaultRightGap, (screenH - geom.h) / 2, geom.w, geom.h);
        case Malformed =>
      }
    }

    /** `toggle_lock`: flips the lock and nothing else; toggling twice restores it. */
    method ToggleLock()
      modifies this
      ensures isLocked == !old(isLocked)
      ensures geom == old(geom) && contentWidth == old(contentWidth) && contentHeight == old(contentHeight)
      ensures dragPosition == old(dragPosition) && resizeEdge == old(resizeEdge) && anchor == old(anchor)
      ensures mouseInside == old(mouseInside) && hoverStart == old(hoverStart)
      ensures lastSaveTime == old(lastSaveTime) && savedSize == old(savedSize) && savedPosition == old(savedPosition)
    {
      isLocked := !isLocked;
    }

    /**
     * `mousePressEvent`: an unlocked left press with no edge grabbed starts a drag
     * when it lands on the content area; every other press changes nothing.
     */
    method MousePress(pos: Point, globalPos: Point, leftButton: bool)
      modifies this
      ensures !old(isLocked) && leftButton && old(resizeEdge).None? && InContent(pos, contentWidth, contentHeight) ==>
        dragPosition == Some(globalPos.Minus(geom.TopLeft()))
      ensures !(!old(isLocked) && leftButton && old(resizeEdge).None? && InContent(pos, contentWidth, contentHeight)) ==>
        dragPosition == old(dragPosition)
      ensures old(isLocked) ==> dragPosition == old(dragPosition)
      ensures geom == old(geom) && contentWidth == old(contentWidth) && contentHeight == old(contentHeight)
      ensures isLocked == old(isLocked) && resizeEdge == old(resizeEdge) && anchor == old(anchor)
      ensures mouseInside == old(mouseInside) && hoverStart == old(hoverStart)
      ensures lastSaveTime == old(lastSaveTime) && savedSize == old(savedSize) && savedPosition == old(savedPosition)
    {
      if !isLocked && leftButton {
        if resizeEdge.None? && InContent(pos, contentWidth, contentHeight) {
          dragPosition := Some(globalPos.Minus(geom.TopLeft()));
        }
      }
    }

    /**
     * `handle_resize`: the first step of a gesture only records where it started;
     * later steps resize from that start by the grabbed edge.
     */
    method HandleResize(globalPos: Point)
      modifies this
      ensures old(anchor).None? ==> anchor == Some(Anchor(old(geom), globalPos)) && geom == old(geom)
      ensures old(anchor).Some? ==> anchor == old(anchor)
      ensures old(anchor).Some? && resizeEdge.Some? ==>
        geom == ResizedGeometry(resizeEdge.value, anchor.value.geom, globalPos.Minus(anchor.value.pos))
      ensures old(anchor).Some? && resizeEdge.None? ==> geom == old(geom)
      ensures contentWidth == old(contentWidth) && contentHeight == old(contentHeight)
      ensures isLocked == old(isLocked) && dragPosition == old(dragPosition) && resizeEdge == old(resizeEdge)
      ensures mouseInside == old(mouseInside) && hoverStart == old(hoverStart)
      ensures lastSaveTime == old(lastSaveTime) && savedSize == old(savedSize) && savedPosition == old(savedPosition)
    {
      if anchor.None? {
        anchor := Some(Anchor(geom, globalPos));
        return;
      }
      if resizeEdge.Some? {
        geom := ResizedGeometry(resizeEdge.value, anchor.value.geom, globalPos.Minus(anchor.value.pos));
      }
    }

    /**
     * `mouseMoveEvent`: tracks whether the pointer is on the content; unlocked,
     * it drags, resizes or (with no button down) picks the edge under the
     * pointer; locked, it lets go of any edge.
     */
    method MouseMove(pos: Point, globalPos: Point, buttons: Buttons, now: int)
      modifies this
      ensures mouseInside == NearContent(pos, contentWidth, contentHeight)
      ensures hoverStart == (if mouseInside && !old(mouseInside) then now else old(hoverStart))
      ensures old(isLocked) ==> resizeEdge.None? && geom == old(geom) && anchor == old(anchor)
      ensures !old(isLocked) && old(dragPosition).Some? && buttons == LeftOnly && old(resizeEdge).None? ==>
        geom == Rect(globalPos.x - old(dragPosition).value.x, globalPos.y - old(dragPosition).value.y, old(geom).w, old(geom).h)
        && resizeEdge.None? && anchor == old(anchor)
      ensures !old(isLocked) && old(resizeEdge).Some? && buttons == LeftOnly ==>
        resizeEdge == old(resizeEdge)
        && (old(anchor).None? ==> anchor == Some(Anchor(old(geom), globalPos)) && geom == old(geom))
        && (old(anchor).Some? ==>
              anchor == old(anchor)
              && geom == ResizedGeometry(old(resizeEdge).value, old(anchor).value.geom, globalPos.Minus(old(anchor).value.pos)))
      ensures !old(isLocked) && buttons == NoButton ==>
        resizeEdge == CursorEdge(pos.Minus(Point(Margin, Margin)), contentWidth, contentHeight, EdgeMargin)
        && geom == old(geom) && anchor == old(anchor)
      ensures !old(isLocked) && buttons == OtherButtons ==>
        resizeEdge == old(resizeEdge) && geom == old(geom) && anchor == old(anchor)
      ensures !old(isLocked) && buttons == LeftOnly && old(dragPosition).None? && old(resizeEdge).None? ==>
        resizeEdge == old(resizeEdge) && geom == old(geom) && anchor == old(anchor)
      ensures contentWidth == old(contentWidth) && contentHeight == old(contentHeight)
      ensures isLocked == old(isLocked) && dragPosition == old(dragPosition)
      ensures lastSaveTime == old(lastSaveTime) && savedSize == old(savedSize) && savedPosition == old(savedPosition)
    {
      var inArea := NearContent(pos, contentWidth, contentHeight);
      if inArea && !mouseInside {
        mouseInside := true;
        hoverStart := now;
      } else if !inArea && mouseInside {
        mouseInside := false;
      }
      if !isLocked {
        if dragPosition.Some? && buttons == LeftOnly && resizeEdge.None? {
          geom := Rect(globalPos.x - dragPosition.value.x, globalPos.y - dragPosition.value.y, geom.w, geom.h);
        } else if resizeEdge.Some? && buttons == LeftOnly {
          HandleResize(globalPos);
        } else if buttons == NoButton {
          resizeEdge := CursorEdge(pos.Minus(Point(Margin, Margin)), contentWidth, contentHeight, EdgeMargin);
        }
      } else {
        resizeEdge := None;
      }
    }

    /** `mouseReleaseEvent`: a left release ends any drag or resize gesture. */
    method MouseRelease(leftButton: bool)
      modifies this
      ensures leftButton ==> dragPosition.None? && resizeEdge.None? && anchor.None?
      ensures !leftButton ==> dragPosition == old(dragPosition) && resizeEdge == old(resizeEdge) && anchor == old(anchor)
      ensures geom == old(geom) && contentWidth == old(contentWidth) && contentHeight == old(contentHeight)
      ensures isLocked == old(isLocked) && mouseInside == old(mouseInside) && hoverStart == old(hoverStart)
      ensures lastSaveTime == old(lastSaveTime) && savedSize == old(savedSize) && savedPosition == old(savedPosition)
    {
      if leftButton {
        dragPosition := None;
        resizeEdge := None;
        anchor := None;
      }
    }

    /** `resizeEvent`: the content takes the new window size less the borders, at least the minimum, and that size is saved. */
    method ResizeEvent()
      modifies this
      ensures contentWidth == ContentExtent(geom.w, MinWidth) && contentHeight == ContentExtent(geom.h, MinHeight)
      ensures savedSize == Some((contentWidth, contentHeight))
      ensures geom == old(geom) && isLocked == old(isLocked) && dragPosition == old(dragPosition)
      ensures resizeEdge == old(resizeEdge) && anchor == old(anchor)
      ensures mouseInside == old(mouseInside) && hoverStart == old(hoverStart)
      ensures lastSaveTime == old(lastSaveTime) && savedPosition == old(savedPosition)
    {
      contentWidth := geom.w - 2 * Margin;
      contentHeight := geom.h - 2 * Margin;
      contentWidth := Max(MinWidth, contentWidth);
      contentHeight := Max(MinHeight, contentHeight);
      savedSize := Some((contentWidth, contentHeight));
    }

    /** `moveEvent` at `now` (milliseconds): the position is saved only when the last save is more than 500 ms ago. */
    method MoveEvent(now: int)
      modifies this
      ensures lastSaveTime == NextSaveTime(old(lastSaveTime), now)
      ensures now - old(lastSaveTime) > SaveDebounceMs ==> savedPosition == Some(geom.TopLeft())
      ensures !(now - old(lastSaveTime) > SaveDebounceMs) ==> savedPosition == old(savedPosition)
      ensures geom == old(geom) && contentWidth == old(contentWidth) && contentHeight == old(contentHeight)
      ensures isLocked == old(isLocked) && dragPosition == old(dragPosition)
      ensures resizeEdge == old(resizeEdge) && anchor == old(anchor)
      ensures mouseInside == old(mouseInside) && hoverStart == old(hoverStart) && savedSize == old(savedSize)
    {
      if now - lastSaveTime > SaveDebounceMs {
        savedPosition := Some(geom.TopLeft());
        lastSaveTime := now;
      }
    }
  }
}
