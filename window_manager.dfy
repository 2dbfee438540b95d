/**
 * The main window's frameless drag and resize handling: which edge a press
 * grabs, resizing by the pointer's movement since the last event, dragging the
 * window within the screen, and turning a drag on the title bar of a maximized
 * window into a restore followed by a normal drag.
 */
module Windows {
  import opened Base
  import opened Geometry
  import Desktop

  /** How close to a side of the window the pointer must be to grab that side. */
  const ResizeMargin := 15

  /** How far (Manhattan distance) the pointer must travel before a maximized window is restored for dragging. */
  const DragThreshold := 10

  /** The rows of the title bar a drag may start from: `TitleTop <= y < TitleBottom`. */
  const TitleTop := 10
  const TitleBottom := 60

  /** The main window's minimum size. */
  const MinWindowWidth := 600
  const MinWindowHeight := 400

  /**
   * The edge of a `width` × `height` window under `p`: corners first, then top,
   * bottom, left and right. As for the desktop widget, a side is grabbed exactly
   * when the pointer is near it, left winning over right and top over bottom.
   */
  function ResizeEdge(p: Point, width: int, height: int, margin: int): (r: Option<Edge>)
    ensures r.None? <==> !NearLeft(p, margin) && !NearRight(p, width, margin) && !NearTop(p, margin) && !NearBottom(p, height, margin)
    ensures r.Some? ==> (r.value.HasLeft() <==> NearLeft(p, margin))
    ensures r.Some? ==> (r.value.HasRight() <==> NearRight(p, width, margin) && !NearLeft(p, margin))
    ensures r.Some? ==> (r.value.HasTop() <==> NearTop(p, margin))
    ensures r.Some? ==> (r.value.HasBottom() <==> NearBottom(p, height, margin) && !NearTop(p, margin))
  {
    var onLeft := p.x <= margin;
    var onRight := p.x >= width - margin;
    var onTop := p.y <= margin;
    var onBottom := p.y >= height - margin;
    if onTop && onLeft then Some(TopLeft)
    else if onTop && onRight then Some(TopRight)
    else if onBottom && onLeft then Some(BottomLeft)
    else if onBottom && onRight then Some(BottomRight)
    else if onTop then Some(Top)
    else if onBottom then Some(Bottom)
    else if onLeft then Some(Left)
    else if onRight then Some(Right)
    else None
  }

  /**
   * The two classifiers test their single sides in different orders, yet with
   * equal margins they always pick the same edge: the order only matters once
   * two sides are near, and then a corner has already been picked.
   */
  lemma ClassifiersAgree(p: Point, width: int, height: int, margin: int)
    ensures ResizeEdge(p, width, height, margin) == Desktop.CursorEdge(p, width, height, margin)
  {
    var r, c := ResizeEdge(p, width, height, margin), Desktop.CursorEdge(p, width, height, margin);
    if r.Some? {
      EdgeBySides(r.value, c.value);
    }
  }

  /** The geometry `g` resized by `delta` along the sides the edge names (`QRect.setRight`, `setLeft`, `setBottom`, `setTop`). */
  function Resized(g: Rect, edge: Edge, delta: Point): (r: Rect)
    ensures r.x == g.x + (if edge.HasLeft() then delta.x else 0)
    ensures r.Right() == g.Right() + (if edge.HasRight() then delta.x else 0)
    ensures r.y == g.y + (if edge.HasTop() then delta.y else 0)
    ensures r.Bottom() == g.Bottom() + (if edge.HasBottom() then delta.y else 0)
  {
    EdgeNamesSides(edge);
    var g1 := if edge.Names("right") then g.SetRight(g.Right() + delta.x) else g;
    var g2 := if edge.Names("left") then g1.SetLeft(g1.x + delta.x) else g1;
    var g3 := if edge.Names("bottom") then g2.SetBottom(g2.Bottom() + delta.y) else g2;
    if edge.Names("top") then g3.SetTop(g3.y + delta.y) else g3
  }

  /** Two resizes by the same edge are one resize by the sum `d` of their movements. */
  lemma ResizedCompose(g: Rect, edge: Edge, d1: Point, d2: Point, d: Point)
    requires d.x == d1.x + d2.x && d.y == d1.y + d2.y
    ensures Resized(Resized(g, edge, d1), edge, d2) == Resized(g, edge, d)
  {
    var m := Resized(g, edge, d1);
    var a, b := Resized(m, edge, d2), Resized(g, edge, d);
    assert a.x == b.x && a.Right() == b.Right();
    assert a.y == b.y && a.Bottom() == b.Bottom();
  }

  /** The geometry after a run of move events at `points`, each resizing by its movement since the previous one, starting from `start`. */
  function ResizeSteps(g: Rect, edge: Edge, start: Point, points: seq<Point>): Rect
    decreases |points|
  {
    if points == [] then g
    else ResizeSteps(Resized(g, edge, points[0].Minus(start)), edge, points[0], points[1..])
  }

  /** One move event resizes by the pointer's movement since `start`. */
  lemma ResizeStepsOne(g: Rect, edge: Edge, start: Point, points: seq<Point>)
    requires |points| == 1
    ensures ResizeSteps(g, edge, start, points) == Resized(g, edge, points[0].Minus(start))
  {
    assert points[1..] == [];
  }

  /** Resizing by the movement from `start` to `mid` and then from `mid` to `stop` is resizing by the movement from `start` to `stop`. */
  lemma ResizedChain(g: Rect, edge: Edge, start: Point, mid: Point, stop: Point)
    ensures Resized(Resized(g, edge, mid.Minus(start)), edge, stop.Minus(mid)) == Resized(g, edge, stop.Minus(start))
  {
    ResizedCompose(g, edge, mid.Minus(start), stop.Minus(mid), stop.Minus(start));
  }

  /** Resizing step by step follows the pointer: the result is one resize by the pointer's whole movement. */
  lemma {:induction false} ResizeStepsTotal(g: Rect, edge: Edge, start: Point, points: seq<Point>)
    requires points != []
    ensures ResizeSteps(g, edge, start, points) == Resized(g, edge, points[|points| - 1].Minus(start))
    decreases |points|
  {
    if |points| > 1 {
      var rest := points[1..];
      ResizeStepsTotal(Resized(g, edge, points[0].Minus(start)), edge, points[0], rest);
      assert rest[|rest| - 1] == points[|points| - 1];
      ResizedChain(g, edge, start, points[0], points[|points| - 1]);
    } else {
      ResizeStepsOne(g, edge, start, points);
    }
  }

  /** A drag target kept on a `screenW` × `screenH` screen for a `w` × `h` window. */
  function DragTarget(p: Point, screenW: int, screenH: int, w: int, h: int): (r: Point)
    ensures r.x >= 0 && r.y >= 0
    ensures w <= screenW && h <= screenH ==> r.x + w <= screenW && r.y + h <= screenH
    ensures 0 <= p.x <= screenW - w && 0 <= p.y <= screenH - h ==> r == p
  {
    Point(ClampAxis(p.x, screenW, w), ClampAxis(p.y, screenH, h))
  }

  /** A drag offset with negative components raised to zero. */
  function NonNegative(p: Point): (r: Point)
    ensures r.x >= 0 && r.y >= 0
    ensures p.x >= 0 && p.y >= 0 ==> r == p
    ensures p.x >= 0 ==> r.x == p.x
    ensures p.y >= 0 ==> r.y == p.y
  {
    if p.x < 0 || p.y < 0 then Point(Max(0, p.x), Max(0, p.y)) else p
  }

  /** The main window as the handlers see it: its geometry, whether it is maximized, and the geometry it returns to when restored. */
  class MainWindow {
    var geom: Rect
    var maximized: bool
    var normalGeom: Rect

    ghost predicate Valid()
      reads this
    {
      && normalGeom.w >= MinWindowWidth && normalGeom.h >= MinWindowHeight
      && (!maximized ==> geom == normalGeom)
    }

    /** A window shown normally at `g`, grown to the minimum size if smaller. */
    constructor(g: Rect)
      ensures Valid() && !maximized
      ensures geom == Rect(g.x, g.y, Max(g.w, MinWindowWidth), Max(g.h, MinWindowHeight))
    {
      geom := Rect(g.x, g.y, Max(g.w, MinWindowWidth), Max(g.h, MinWindowHeight));
      normalGeom := geom;
      maximized := false;
    }

    /** `setGeometry`: Qt keeps the requested origin and grows the size to the minimum. */
    method SetGeometry(r: Rect)
      requires Valid()
      modifies this
      ensures Valid() && maximized == old(maximized)
      ensures geom == Rect(r.x, r.y, Max(r.w, MinWindowWidth), Max(r.h, MinWindowHeight))
      ensures normalGeom == if maximized then old(normalGeom) else geom
    {
      geom := Rect(r.x, r.y, Max(r.w, MinWindowWidth), Max(r.h, MinWindowHeight));
      if !maximized {
        normalGeom := geom;
      }
    }

    /** `move`: a new origin, the same size. */
    method Move(p: Point)
      requires Valid()
      modifies this
      ensures Valid() && maximized == old(maximized)
      ensures geom == Rect(p.x, p.y, old(geom).w, old(geom).h)
      ensures normalGeom == if maximized then old(normalGeom) else geom
    {
      geom := Rect(p.x, p.y, geom.w, geom.h);
      if !maximized {
        normalGeom := geom;
      }
    }

    /** `showNormal`: a maximized window returns to its normal geometry. */
    method ShowNormal()
      requires Valid()
      modifies this
      ensures Valid() && !maximized
      ensures geom == old(normalGeom) && normalGeom == old(normalGeom)
    {
      maximized := false;
      geom := normalGeom;
    }
  }

  /** The drag and resize state of the main window's handlers. */
  class WindowManager {
    const window: MainWindow
    var dragging: bool
    /** While dragging, the pointer's offset from the window origin; while resizing or about to restore, the pointer's last screen position. */
    var dragPosition: Point
    var pendingRestore: bool
    var updatingStyles: bool
    var resizing: bool
    var resizeEdge: Option<Edge>

    /** Between events no style update is under way, and a resize always has an edge. */
    ghost predicate Valid()
      reads this, window
    {
      && window.Valid()
      && !updatingStyles
      && (resizing ==> resizeEdge.Some?)
    }

    constructor(w: MainWindow)
      requires w.Valid()
      ensures Valid() && window == w
      ensures !dragging && !pendingRestore && !resizing && resizeEdge.None? && dragPosition == Point(0, 0)
    {
      window := w;
      dragging := false;
      dragPosition := Point(0, 0);
      pendingRestore := false;
      updatingStyles := false;
      resizing := false;
      resizeEdge := None;
    }

    /**
     * `mouse_press_event`: a left press on an edge of a window that is not
     * maximized starts a resize; otherwise a press on the title bar starts a
     * drag, or, when maximized, waits to see whether the pointer moves far
     * enough to restore the window.
     */
    method MousePress(pos: Point, globalPos: Point, leftButton: bool)
      requires Valid()
      modifies this
      ensures Valid() && window.geom == old(window.geom) && window.maximized == old(window.maximized)
      ensures var edge := ResizeEdge(pos, window.geom.w, window.geom.h, ResizeMargin);
        && (leftButton && !window.maximized && edge.Some? ==>
              resizing && resizeEdge == edge && dragPosition == globalPos
              && dragging == old(dragging) && pendingRestore == old(pendingRestore))
        && (leftButton && !(!window.maximized && edge.Some?) && TitleTop <= pos.y < TitleBottom ==>
              resizing == old(resizing) && resizeEdge == old(resizeEdge)
              && (window.maximized ==> pendingRestore && dragPosition == globalPos && dragging == old(dragging))
              && (!window.maximized ==>
                    dragging && dragPosition == globalPos.Minus(window.geom.TopLeft()) && pendingRestore == old(pendingRestore)))
        && (!leftButton || (!(!window.maximized && edge.Some?) && !(TitleTop <= pos.y < TitleBottom)) ==>
              dragging == old(dragging) && dragPosition == old(dragPosition) && pendingRestore == old(pendingRestore)
              && resizing == old(resizing) && resizeEdge == old(resizeEdge))
    {
      if leftButton {
        if !window.maximized {
          var edge := ResizeEdge(pos, window.geom.w, window.geom.h, ResizeMargin);
          if edge.Some? {
            resizing := true;
            resizeEdge := edge;
            dragPosition := globalPos;
            return;
          }
        }
        if TitleTop <= pos.y < TitleBottom {
          if window.maximized {
            pendingRestore := true;
            dragPosition := globalPos;
          } else {
            dragging := true;
            dragPosition := globalPos.Minus(window.geom.TopLeft());
          }
        }
      }
    }

    /**
     * `mouse_move_event`: with the left button held, a resize takes priority
     * over a drag, and a drag over a pending restore; a pending restore becomes
     * a drag once the pointer has moved more than the threshold.
     */
    method MouseMove(globalPos: Point, buttons: Desktop.Buttons, screenW: int, screenH: int)
      requires Valid()
      modifies this, window
      ensures Valid()
      ensures old(resizing) && buttons == Desktop.LeftOnly ==>
        && dragPosition == globalPos
        && window.geom == (var r := Resized(old(window.geom), old(resizeEdge).value, globalPos.Minus(old(dragPosition)));
                           Rect(r.x, r.y, Max(r.w, MinWindowWidth), Max(r.h, MinWindowHeight)))
        && dragging == old(dragging) && pendingRestore == old(pendingRestore)
        && window.maximized == old(window.maximized)
        && window.normalGeom == (if window.maximized then old(window.normalGeom) else window.geom)
      ensures !old(resizing) && old(dragging) && buttons == Desktop.LeftOnly ==>
        && window.geom.TopLeft()
             == DragTarget(globalPos.Minus(old(dragPosition)), screenW, screenH, old(window.geom).w, old(window.geom).h)
        && window.geom.w == old(window.geom).w && window.geom.h == old(window.geom).h
        && dragging && dragPosition == old(dragPosition) && pendingRestore == old(pendingRestore)
        && window.maximized == old(window.maximized)
        && window.normalGeom == (if window.maximized then old(window.normalGeom) else window.geom)
      ensures !old(resizing) && !old(dragging) && old(pendingRestore) && buttons == Desktop.LeftOnly ==>
        if globalPos.Minus(old(dragPosition)).ManhattanLength() > DragThreshold then
          && dragging && !pendingRestore && !window.maximized
          && window.geom == old(window.normalGeom) && window.normalGeom == old(window.normalGeom)
          && dragPosition == NonNegative(globalPos.Minus(window.geom.TopLeft()))
        else
          && dragging == old(dragging) && pendingRestore && dragPosition == old(dragPosition)
          && window.geom == old(window.geom) && window.maximized == old(window.maximized)
          && window.normalGeom == old(window.normalGeom)
      ensures buttons != Desktop.LeftOnly || (!old(resizing) && !old(dragging) && !old(pendingRestore)) ==>
        && dragging == old(dragging) && dragPosition == old(dragPosition) && pendingRestore == old(pendingRestore)
        && window.geom == old(window.geom) && window.maximized == old(window.maximized)
        && window.normalGeom == old(window.normalGeom)
      ensures resizing == old(resizing) && resizeEdge == old(resizeEdge)
    {
      if resizing && buttons == Desktop.LeftOnly {
        var delta := globalPos.Minus(dragPosition);
        dragPosition := globalPos;
        var geo := Resized(window.geom, resizeEdge.value, delta);
        window.SetGeometry(geo);
      } else if dragging && buttons == Desktop.LeftOnly {
        if !resizing {
          var newPos := globalPos.Minus(dragPosition);
          newPos := DragTarget(newPos, screenW, screenH, window.geom.w, window.geom.h);
          window.Move(newPos);
        }
      } else if pendingRestore && buttons == Desktop.LeftOnly {
        var distance := globalPos.Minus(dragPosition).ManhattanLength();
        if distance > DragThreshold {
          window.ShowNormal();
          if !updatingStyles {
            updatingStyles := true;
            updatingStyles := false;
          }
          dragging := true;
          pendingRestore := false;
          dragPosition := globalPos.Minus(window.geom.TopLeft());
          if dragPosition.x < 0 || dragPosition.y < 0 {
            dragPosition := Point(Max(0, dragPosition.x), Max(0, dragPosition.y));
          }
        }
      }
    }

    /** `mouse_release_event`: a left release ends any drag, resize or pending restore. */
    method MouseRelease(leftButton: bool)
      requires Valid()
      modifies this
      ensures Valid()
      ensures leftButton ==> !dragging && !resizing && resizeEdge.None? && !pendingRestore
      ensures !leftButton ==>
        dragging == old(dragging) && resizing == old(resizing) && resizeEdge == old(resizeEdge) && pendingRestore == old(pendingRestore)
      ensures dragPosition == old(dragPosition)
    {
      if leftButton {
        dragging := false;
        resizing := false;
        resizeEdge := None;
        pendingRestore := false;
      }
    }
  }
}
