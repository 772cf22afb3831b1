/** Integer image-plane geometry: points, axis-aligned rectangles, the bounding
    rectangle of a point list and the centre of a rectangle.

    Vertices reach the quadrilateral as 32-bit signed integers (the contour is
    converted to `CV_32S` before healing), so points are modelled with `int`
    coordinates. Overflow of 32-bit arithmetic is not modelled: coordinates are
    pixel positions, far from the limits.
 */
module Geometry {

  datatype Point = Point(x: int, y: int)

  /** An axis-aligned rectangle in OpenCV's integer convention: it covers the
      pixels x <= px < x + width and y <= py < y + height. */
  datatype Rect = Rect(x: int, y: int, width: nat, height: nat)

  /** The rectangle OpenCV reports for an empty point set. It is the only
      rectangle `BoundingRect` returns with a zero width or height. */
  const EmptyRect := Rect(0, 0, 0, 0)

  predicate Contains(r: Rect, p: Point) {
    r.x <= p.x < r.x + r.width && r.y <= p.y < r.y + r.height
  }

  function Min(s: seq<int>): (m: int)
    requires |s| > 0
    ensures forall i :: 0 <= i < |s| ==> m <= s[i]
    ensures exists i :: 0 <= i < |s| && s[i] == m
  {
    if |s| == 1 then s[0]
    else
      var rest := Min(s[1..]);
      if s[0] <= rest then s[0] else rest
  }

  function Max(s: seq<int>): (m: int)
    requires |s| > 0
    ensures forall i :: 0 <= i < |s| ==> s[i] <= m
    ensures exists i :: 0 <= i < |s| && s[i] == m
  {
    if |s| == 1 then s[0]
    else
      var rest := Max(s[1..]);
      if rest <= s[0] then s[0] else rest
  }

  function Xs(s: seq<Point>): (xs: seq<int>)
    ensures |xs| == |s|
    ensures forall i :: 0 <= i < |s| ==> xs[i] == s[i].x
  {
    seq(|s|, i requires 0 <= i < |s| => s[i].x)
  }

  function Ys(s: seq<Point>): (ys: seq<int>)
    ensures |ys| == |s|
    ensures forall i :: 0 <= i < |s| ==> ys[i] == s[i].y
  {
    seq(|s|, i requires 0 <= i < |s| => s[i].y)
  }

  /** Some point of `s` lies on each of the four edges of `r`. */
  predicate Tight(s: seq<Point>, r: Rect) {
    && (exists i :: 0 <= i < |s| && s[i].x == r.x)
    && (exists i :: 0 <= i < |s| && s[i].x == r.x + r.width - 1)
    && (exists i :: 0 <= i < |s| && s[i].y == r.y)
    && (exists i :: 0 <= i < |s| && s[i].y == r.y + r.height - 1)
  }

  /** OpenCV's `Imgproc.boundingRect` on integer points: the smallest
      rectangle covering every point, whose width and height therefore count
      the pixels spanned (max - min + 1). The empty list gives `EmptyRect`. */
  function BoundingRect(s: seq<Point>): (r: Rect)
    ensures |s| == 0 ==> r == EmptyRect
    ensures |s| > 0 ==> r.width > 0 && r.height > 0 && Tight(s, r)
    ensures forall i :: 0 <= i < |s| ==> Contains(r, s[i])
  {
    if |s| == 0 then EmptyRect
    else
      var x0, x1 := Min(Xs(s)), Max(Xs(s));
      var y0, y1 := Min(Ys(s)), Max(Ys(s));
      Rect(x0, y0, x1 - x0 + 1, y1 - y0 + 1)
  }

  /** The rectangle's centre as `getCenter` and `healPoly` compute it:
      `x + width / 2` with Java's integer division, which truncates; widths
      are never negative, so Dafny's `/` on `nat` agrees with it. */
  function Center(r: Rect): (c: Point)
    ensures 0 <= 2 * (c.x - r.x) <= r.width < 2 * (c.x - r.x) + 2
    ensures 0 <= 2 * (c.y - r.y) <= r.height < 2 * (c.y - r.y) + 2
  {
    Point(r.x + r.width / 2, r.y + r.height / 2)
  }

  /** The bounding rectangle is the least rectangle that covers the points:
      every covering rectangle covers it too. */
  lemma BoundingRectIsLeast(s: seq<Point>, r: Rect)
    requires |s| > 0
    requires forall i :: 0 <= i < |s| ==> Contains(r, s[i])
    ensures var b := BoundingRect(s);
      r.x <= b.x && b.x + b.width <= r.x + r.width &&
      r.y <= b.y && b.y + b.height <= r.y + r.height
  {
    var b := BoundingRect(s);
    var i0 :| 0 <= i0 < |s| && s[i0].x == b.x;
    var i1 :| 0 <= i1 < |s| && s[i1].x == b.x + b.width - 1;
    var j0 :| 0 <= j0 < |s| && s[j0].y == b.y;
    var j1 :| 0 <= j1 < |s| && s[j1].y == b.y + b.height - 1;
    assert Contains(r, s[i0]) && Contains(r, s[i1]);
    assert Contains(r, s[j0]) && Contains(r, s[j1]);
  }

  /** The bounding rectangle is the only covering rectangle with a point on
      each edge. */
  lemma BoundingRectUnique(s: seq<Point>, r: Rect)
    requires forall i :: 0 <= i < |s| ==> Contains(r, s[i])
    requires Tight(s, r)
    ensures BoundingRect(s) == r
  {
    var b := BoundingRect(s);
    BoundingRectIsLeast(s, r);
    var i0 :| 0 <= i0 < |s| && s[i0].x == r.x;
    var i1 :| 0 <= i1 < |s| && s[i1].x == r.x + r.width - 1;
    var j0 :| 0 <= j0 < |s| && s[j0].y == r.y;
    var j1 :| 0 <= j1 < |s| && s[j1].y == r.y + r.height - 1;
    assert Contains(b, s[i0]) && Contains(b, s[i1]);
    assert Contains(b, s[j0]) && Contains(b, s[j1]);
    assert b.x == r.x && b.width == r.width;
    assert b.y == r.y && b.height == r.height;
  }

  /** A zero width is the mark of the empty polygon, never a degenerate one. */
  lemma EmptyRectOnlyForEmptyInput(s: seq<Point>)
    ensures BoundingRect(s).width == 0 <==> |s| == 0
    ensures BoundingRect(s).height == 0 <==> |s| == 0
  {
  }

  /** The centre of a non-empty rectangle is one of its pixels. */
  lemma CenterInside(r: Rect)
    requires r.width > 0 && r.height > 0
    ensures Contains(r, Center(r))
  {
  }
}
