/**
 * `speech_bubble`: the outline of an annotation box with a triangular
 * pointer aimed at an anchor point. Paths are the vertex lists of the
 * subtitle drawing command `m p0 l p1 p2 ...`, which closes the polygon.
 */
module Bubble {
  import opened Wrappers
  import opened Direction

  datatype Point = Point(x: real, y: real)

  /** Where the pointer's base starts and how wide it is, as fractions of the box's width or height. */
  const HBaseStart: real := 0.17379070765180116
  const HBaseEnd: real := 0.14896346370154384
  const VBaseStart: real := 0.12
  const VBaseEnd: real := 0.3

  /** The plain box outline: top-left, top-right, bottom-right, bottom-left. */
  function Rectangle(x: real, y: real, x2: real, y2: real): seq<Point>
  {
    [Point(x, y), Point(x2, y), Point(x2, y2), Point(x, y2)]
  }

  /**
   * The bubble outline: the box corners with the pointer's base points and
   * the anchor spliced into the edge the direction names. Without a
   * direction there is no outline at all (the empty drawing), not the plain
   * rectangle.
   */
  function SpeechBubble(x: real, y: real, x2: real, y2: real, width: real, height: real,
                        pointX: real, pointY: real, padding: real): (path: seq<Point>)
    ensures path == [] <==> GetPointDirection(x, y, width, height, pointX, pointY, padding).None?
    ensures path != [] ==> |path| == 7
  {
    var apex := Point(pointX, pointY);
    match GetPointDirection(x, y, width, height, pointX, pointY, padding)
    case None => []
    case Some(BottomRight) =>
      var baseStartX := width - ((width * HBaseStart) * 2.0);
      var baseEndX := baseStartX + (width * HBaseEnd);
      [Point(x, y), Point(x2, y), Point(x2, y2),
       Point(baseEndX + x, height + y), apex, Point(baseStartX + x, height + y),
       Point(x, y2)]
    case Some(BottomLeft) =>
      var baseStartX := width * HBaseStart;
      var baseEndX := baseStartX + (width * HBaseEnd);
      [Point(x, y), Point(x2, y), Point(x2, y2),
       Point(baseEndX + x, height + y), apex, Point(baseStartX + x, height + y),
       Point(x, y2)]
    case Some(TopRight) =>
      var baseStartX := width - ((width * HBaseStart) * 2.0);
      var baseEndX := baseStartX + (width * HBaseEnd);
      [Point(x, y),
       Point(baseStartX + x, y), apex, Point(baseEndX + x, y),
       Point(x2, y), Point(x2, y2), Point(x, y2)]
    case Some(TopLeft) =>
      var baseStartX := width * HBaseStart;
      var baseEndX := baseStartX + (width * HBaseEnd);
      [Point(x, y),
       Point(baseStartX + x, y), apex, Point(baseEndX + x, y),
       Point(x2, y), Point(x2, y2), Point(x, y2)]
    case Some(Right) =>
      var baseStartY := height * VBaseStart;
      var baseEndY := baseStartY + (height * VBaseEnd);
      [Point(x, y), Point(x2, y),
       Point(width + x, baseStartY + y), apex, Point(width + x, baseEndY + y),
       Point(x2, y2), Point(x, y2)]
    case Some(Left) =>
      var baseStartY := height * VBaseStart;
      var baseEndY := baseStartY + (height * VBaseEnd);
      [Point(x, y), Point(x2, y), Point(x2, y2), Point(x, y2),
       Point(x, baseEndY + y), apex, Point(x, baseStartY + y)]
  }

  /**
   * The rectangle edge the pointer interrupts, as the index of its end
   * corner: 1 the top edge, 2 the right edge, 3 the bottom edge, 4 (that is,
   * corner 0 again) the closing left edge.
   */
  function EdgeIndex(d: Direction): (k: nat)
    ensures 1 <= k <= 4
  {
    match d
    case BottomRight => 3
    case BottomLeft => 3
    case TopRight => 1
    case TopLeft => 1
    case Right => 2
    case Left => 4
  }

  /**
   * A bubble is the plain rectangle with three points inserted into one
   * edge, and the middle one of them is the anchor itself, unclamped.
   */
  lemma SpliceIntoEdge(x: real, y: real, x2: real, y2: real, width: real, height: real,
                       pointX: real, pointY: real, padding: real)
    requires GetPointDirection(x, y, width, height, pointX, pointY, padding).Some?
    ensures
      var k := EdgeIndex(GetPointDirection(x, y, width, height, pointX, pointY, padding).value);
      var path := SpeechBubble(x, y, x2, y2, width, height, pointX, pointY, padding);
      path[..k] + path[k + 3..] == Rectangle(x, y, x2, y2) && path[k + 1] == Point(pointX, pointY)
  {
  }

  /** `a <= b <= c <= d` or `a >= b >= c >= d`. */
  predicate Monotone(a: real, b: real, c: real, d: real)
  {
    (a <= b <= c <= d) || (a >= b >= c >= d)
  }

  /**
   * `p` and then `q` lie on the axis-parallel segment from `a` to `b`,
   * between its ends and in the order one meets them walking from `a` to `b`.
   */
  predicate InOrderOnEdge(a: Point, p: Point, q: Point, b: Point)
  {
    (a.y == b.y && p.y == a.y && q.y == a.y && Monotone(a.x, p.x, q.x, b.x))
    || (a.x == b.x && p.x == a.x && q.x == a.x && Monotone(a.y, p.y, q.y, b.y))
  }

  /**
   * When `x2` and `y2` are the box's far corner and the box is not inverted,
   * the pointer's two base points lie on the interrupted edge, inside it, in
   * the polygon's walking direction, so the outline never folds back.
   */
  lemma BasePointsOnEdge(x: real, y: real, x2: real, y2: real, width: real, height: real,
                         pointX: real, pointY: real, padding: real)
    requires x2 == x + width && y2 == y + height && width >= 0.0 && height >= 0.0
    requires GetPointDirection(x, y, width, height, pointX, pointY, padding).Some?
    ensures
      var k := EdgeIndex(GetPointDirection(x, y, width, height, pointX, pointY, padding).value);
      var path := SpeechBubble(x, y, x2, y2, width, height, pointX, pointY, padding);
      var rect := Rectangle(x, y, x2, y2);
      InOrderOnEdge(rect[k - 1], path[k], path[k + 2], rect[k % 4])
  {
    var d := GetPointDirection(x, y, width, height, pointX, pointY, padding).value;
    var path := SpeechBubble(x, y, x2, y2, width, height, pointX, pointY, padding);
    var rect := Rectangle(x, y, x2, y2);
    match d
    case BottomRight =>
      assert Monotone(x2, path[3].x, path[5].x, x) by { Fractions(width); }
    case BottomLeft =>
      assert Monotone(x2, path[3].x, path[5].x, x) by { Fractions(width); }
    case TopRight =>
      assert Monotone(x, path[1].x, path[3].x, x2) by { Fractions(width); }
    case TopLeft =>
      assert Monotone(x, path[1].x, path[3].x, x2) by { Fractions(width); }
    case Right =>
      assert Monotone(y, path[2].y, path[4].y, y2) by { Fractions(height); }
    case Left =>
      assert Monotone(y2, path[4].y, path[6].y, y) by { Fractions(height); }
  }

  /** The base offsets, as fractions of a non-negative extent, are ordered and within it. */
  lemma Fractions(s: real)
    requires s >= 0.0
    ensures 0.0 <= s * HBaseStart <= s * HBaseStart + s * HBaseEnd <= s / 2.0
    ensures s / 2.0 <= s - (s * HBaseStart) * 2.0 <= s - (s * HBaseStart) * 2.0 + s * HBaseEnd <= s
    ensures 0.0 <= s * VBaseStart <= s * VBaseStart + s * VBaseEnd <= s / 2.0
  {
  }

  /**
   * The pointer's base sits in the half of its edge that the direction
   * names: the right half for bottom-right and top-right, the left half for
   * bottom-left and top-left, and the upper half of the side for right and left.
   */
  lemma BaseInNamedHalf(x: real, y: real, x2: real, y2: real, width: real, height: real,
                        pointX: real, pointY: real, padding: real)
    requires width >= 0.0 && height >= 0.0
    requires GetPointDirection(x, y, width, height, pointX, pointY, padding).Some?
    ensures
      var d := GetPointDirection(x, y, width, height, pointX, pointY, padding).value;
      var k := EdgeIndex(d);
      var path := SpeechBubble(x, y, x2, y2, width, height, pointX, pointY, padding);
      var mid := Point(x + width / 2.0, y + height / 2.0);
      && (d in {BottomRight, TopRight} ==> path[k].x >= mid.x && path[k + 2].x >= mid.x)
      && (d in {BottomLeft, TopLeft} ==> path[k].x <= mid.x && path[k + 2].x <= mid.x)
      && (d in {Right, Left} ==> path[k].y <= mid.y && path[k + 2].y <= mid.y)
  {
    Fractions(width);
    Fractions(height);
  }
}
