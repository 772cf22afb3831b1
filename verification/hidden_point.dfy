/** Reconstruction of a corner hidden behind an occlusion notch, from the two
    candidate vertices found in one quadrant (`findHiddenPoint`).

    The synthetic corner combines the y of one candidate with the x of the
    other: in a top quadrant it takes the smaller (upper) y and the x of the
    candidate with the larger y; in a bottom quadrant it takes the larger
    (lower) y and the x of the candidate with the smaller y. When the two y
    values are equal the code's else-branch decides, so the result then
    depends on argument order.
 */
module HiddenPoint {
  import opened Geometry
  import opened Quadrants

  function FindHiddenPoint(p0: Point, p1: Point, d: Direction): (r: Point)
    // the y is the extreme one on the quadrant's outer side
    ensures IsTop(d) ==> r.y <= p0.y && r.y <= p1.y
    ensures !IsTop(d) ==> r.y >= p0.y && r.y >= p1.y
    // with distinct y values, x and y come from different candidates
    ensures p0.y != p1.y ==> (r.x == p0.x && r.y == p1.y) || (r.x == p1.x && r.y == p0.y)
    // on a y tie a top quadrant yields the second candidate, a bottom one the first
    ensures p0.y == p1.y ==> r == (if IsTop(d) then p1 else p0)
  {
    if IsTop(d) then
      if p0.y > p1.y then Point(p0.x, p1.y) else Point(p1.x, p0.y)
    else
      if p0.y > p1.y then Point(p1.x, p0.y) else Point(p0.x, p1.y)
  }

  /** The hidden point lies in the bounding rectangle of its two candidates. */
  lemma HiddenPointInCandidateBox(p0: Point, p1: Point, d: Direction)
    ensures Contains(BoundingRect([p0, p1]), FindHiddenPoint(p0, p1, d))
  {
    var r := FindHiddenPoint(p0, p1, d);
    var s := [p0, p1];
    assert r.x == s[0].x || r.x == s[1].x;
    assert r.y == s[0].y || r.y == s[1].y;
  }

  /** With distinct y values the order of the candidates does not matter. */
  lemma FindHiddenPointSwap(p0: Point, p1: Point, d: Direction)
    requires p0.y != p1.y
    ensures FindHiddenPoint(p0, p1, d) == FindHiddenPoint(p1, p0, d)
  {
  }

  /** On a y tie the order does matter: the two candidates (1, 5) and (3, 5)
      give different top-left corners depending on which comes first. */
  lemma FindHiddenPointTieDependsOnOrder()
    ensures FindHiddenPoint(Point(1, 5), Point(3, 5), TopLeft) == Point(3, 5)
    ensures FindHiddenPoint(Point(3, 5), Point(1, 5), TopLeft) == Point(1, 5)
  {
  }

  /** Top-left candidates (1, 1) and (3, 4): the corner takes the upper y, 1,
      and the x of the lower candidate, 3. */
  lemma FindHiddenPointTopLeftExample()
    ensures FindHiddenPoint(Point(1, 1), Point(3, 4), TopLeft) == Point(3, 1)
    ensures FindHiddenPoint(Point(1, 1), Point(3, 4), BottomLeft) == Point(1, 4)
  {
  }
}
