/** Points, rectangles and window edges in Qt's integer pixel coordinates. */
module Geometry {
  import opened Base
  import Text

  datatype Point = Point(x: int, y: int)
  {
    /** `QPoint - QPoint`. */
    function Minus(o: Point): Point
    {
      Point(x - o.x, y - o.y)
    }

    /** `QPoint.manhattanLength()`. */
    function ManhattanLength(): nat
    {
      (if x < 0 then -x else x) + (if y < 0 then -y else y)
    }
  }

  /** A `QRect`: top-left corner and size. */
  datatype Rect = Rect(x: int, y: int, w: int, h: int)
  {
    function TopLeft(): Point
    {
      Point(x, y)
    }

    /** `QRect.right()`: the last column inside the rectangle. */
    function Right(): int
    {
      x + w - 1
    }

    /** `QRect.bottom()`: the last row inside the rectangle. */
    function Bottom(): int
    {
      y + h - 1
    }

    /** `QRect.setLeft`: moves the left side and keeps the right one. */
    function SetLeft(l: int): (r: Rect)
      ensures r.x == l && r.Right() == Right() && r.y == y && r.h == h
    {
      Rect(l, y, w - (l - x), h)
    }

    /** `QRect.setRight`: moves the right side and keeps the left one. */
    function SetRight(rt: int): (r: Rect)
      ensures r.Right() == rt && r.x == x && r.y == y && r.h == h
    {
      Rect(x, y, rt - x + 1, h)
    }

    /** `QRect.setTop`: moves the top side and keeps the bottom one. */
    function SetTop(t: int): (r: Rect)
      ensures r.y == t && r.Bottom() == Bottom() && r.x == x && r.w == w
    {
      Rect(x, t, w, h - (t - y))
    }

    /** `QRect.setBottom`: moves the bottom side and keeps the top one. */
    function SetBottom(b: int): (r: Rect)
      ensures r.Bottom() == b && r.y == y && r.x == x && r.w == w
    {
      Rect(x, y, w, b - y + 1)
    }
  }

  /** Whether a point of a `width` × `height` area lies within `margin` pixels of each side (bounds included). */
  predicate NearLeft(p: Point, margin: int) { p.x <= margin }

  predicate NearRight(p: Point, width: int, margin: int) { p.x >= width - margin }

  predicate NearTop(p: Point, margin: int) { p.y <= margin }

  predicate NearBottom(p: Point, height: int, margin: int) { p.y >= height - margin }

  /** The values the source stores in `resize_edge`. */
  datatype Edge = Top | Bottom | Left | Right | TopLeft | TopRight | BottomLeft | BottomRight
  {
    /** The string the source uses for this edge. */
    function Name(): string
    {
      match this
      case Top => "top"
      case Bottom => "bottom"
      case Left => "left"
      case Right => "right"
      case TopLeft => "top-left"
      case TopRight => "top-right"
      case BottomLeft => "bottom-left"
      case BottomRight => "bottom-right"
    }

    predicate HasLeft() { this == Left || this == TopLeft || this == BottomLeft }

    predicate HasRight() { this == Right || this == TopRight || this == BottomRight }

    predicate HasTop() { this == Top || this == TopLeft || this == TopRight }

    predicate HasBottom() { this == Bottom || this == BottomLeft || this == BottomRight }

    /** `side in resize_edge`: the source tests for a side by a substring of the edge's name. */
    predicate Names(side: string)
    {
      Text.Contains(Name(), side)
    }
  }

  /** An edge is determined by the sides it includes. */
  lemma EdgeBySides(e: Edge, f: Edge)
    requires e.HasLeft() == f.HasLeft() && e.HasRight() == f.HasRight()
    requires e.HasTop() == f.HasTop() && e.HasBottom() == f.HasBottom()
    ensures e == f
  {
  }

  /** `side in resize_edge` picks out exactly the edges that include that side. */
  lemma EdgeNamesSides(e: Edge)
    ensures e.Names("left") <==> e.HasLeft()
    ensures e.Names("right") <==> e.HasRight()
    ensures e.Names("top") <==> e.HasTop()
    ensures e.Names("bottom") <==> e.HasBottom()
  {
    EdgeNamesLeft(e);
    EdgeNamesRight(e);
    EdgeNamesTop(e);
    EdgeNamesBottom(e);
  }

  lemma EdgeNamesLeft(e: Edge)
    ensures e.Names("left") <==> e.HasLeft()
  {
    match e
    case Top => Text.ContainsNeedsChar("top", "left", 0);
    case Bottom => Text.ContainsNeedsChar("bottom", "left", 0);
    case Left => assert Text.OccursAt("left", "left", 0);
    case Right => Text.ContainsNeedsChar("right", "left", 0);
    case TopLeft => assert Text.OccursAt("top-left", "left", 4);
    case TopRight => Text.ContainsNeedsChar("top-right", "left", 0);
    case BottomLeft => assert Text.OccursAt("bottom-left", "left", 7);
    case BottomRight => Text.ContainsNeedsChar("bottom-right", "left", 0);
  }

  lemma EdgeNamesRight(e: Edge)
    ensures e.Names("right") <==> e.HasRight()
  {
    match e
    case Top => Text.ContainsNeedsChar("top", "right", 0);
    case Bottom => Text.ContainsNeedsChar("bottom", "right", 0);
    case Left => Text.ContainsNeedsChar("left", "right", 0);
    case Right => assert Text.OccursAt("right", "right", 0);
    case TopLeft => Text.ContainsNeedsChar("top-left", "right", 0);
    case TopRight => assert Text.OccursAt("top-right", "right", 4);
    case BottomLeft => Text.ContainsNeedsChar("bottom-left", "right", 0);
    case BottomRight => assert Text.OccursAt("bottom-right", "right", 7);
  }

  lemma EdgeNamesTop(e: Edge)
    ensures e.Names("top") <==> e.HasTop()
  {
    match e
    case Top => assert Text.OccursAt("top", "top", 0);
    case Bottom => Text.ContainsNeedsChar("bottom", "top", 2);
    case Left => Text.ContainsNeedsChar("left", "top", 2);
    case Right => Text.ContainsNeedsChar("right", "top", 2);
    case TopLeft => assert Text.OccursAt("top-left", "top", 0);
    case TopRight => assert Text.OccursAt("top-right", "top", 0);
    case BottomLeft => Text.ContainsNeedsChar("bottom-left", "top", 2);
    case BottomRight => Text.ContainsNeedsChar("bottom-right", "top", 2);
  }

  lemma EdgeNamesBottom(e: Edge)
    ensures e.Names("bottom") <==> e.HasBottom()
  {
    match e
    case Top => Text.ContainsNeedsChar("top", "bottom", 0);
    case Bottom => assert Text.OccursAt("bottom", "bottom", 0);
    case Left => Text.ContainsNeedsChar("left", "bottom", 0);
    case Right => Text.ContainsNeedsChar("right", "bottom", 0);
    case TopLeft => Text.ContainsNeedsChar("top-left", "bottom", 0);
    case TopRight => Text.ContainsNeedsChar("top-right", "bottom", 0);
    case BottomLeft => assert Text.OccursAt("bottom-left", "bottom", 0);
    case BottomRight => assert Text.OccursAt("bottom-right", "bottom", 0);
  }

  /**
   * `max(0, min(v, limit - size))`: the coordinate the source keeps for a window
   * of extent `size` on a screen of extent `limit`.
   */
  function ClampAxis(v: int, limit: int, size: int): (r: int)
    ensures r >= 0
    ensures size <= limit ==> r <= limit - size
    ensures 0 <= v <= limit - size ==> r == v
    ensures v < 0 || limit - size < 0 ==> r == 0
    ensures v > limit - size >= 0 ==> r == limit - size
  {
    Max(0, Min(v, limit - size))
  }

  /** Clamping a clamped coordinate again changes nothing. */
  lemma ClampAxisIdempotent(v: int, limit: int, size: int)
    ensures ClampAxis(ClampAxis(v, limit, size), limit, size) == ClampAxis(v, limit, size)
  {
  }
}
