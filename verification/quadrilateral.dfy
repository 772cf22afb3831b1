/** The quadrilateral entity: four corner slots, the parallel `vertices`
    array, the polygon, its bounding rectangle and the sticky `isDenaturated`
    flag; healing a raw vertex list into it, the derived queries, the
    alignment test and the merge of two quadrilaterals.

    The object is modelled as an immutable value and every mutating method as
    a function from the old value to the new one. A field that is still
    `null` on a fresh object is `None`.
 */
module Quadrilateral {
  import opened Optional
  import opened Geometry
  import opened Quadrants
  import opened HiddenPoint

  /** One optional point per quadrant. Used both for the four named corner
      fields and for the four-slot `vertices` array, whose slots 0..3 are
      top-left, top-right, bottom-right and bottom-left. */
  datatype Corners = Corners(topLeft: Option<Point>, topRight: Option<Point>,
                             bottomRight: Option<Point>, bottomLeft: Option<Point>)
  {
    function Get(d: Direction): Option<Point> {
      match d
      case TopLeft => topLeft
      case TopRight => topRight
      case BottomRight => bottomRight
      case BottomLeft => bottomLeft
    }

    function With(d: Direction, p: Option<Point>): (r: Corners)
      ensures r.Get(d) == p
      ensures forall e :: e != d ==> r.Get(e) == Get(e)
    {
      match d
      case TopLeft => this.(topLeft := p)
      case TopRight => this.(topRight := p)
      case BottomRight => this.(bottomRight := p)
      case BottomLeft => this.(bottomLeft := p)
    }
  }

  const NoCorners := Corners(None, None, None, None)

  datatype Quad = Quad(corners: Corners, vertices: Corners, poly: Option<seq<Point>>,
                       rect: Option<Rect>, denaturated: bool)

  /** A newly constructed object: nothing set, and the flag false. */
  const Fresh := Quad(NoCorners, NoCorners, None, None, false)

  /** The rectangle is the bounding rectangle of the current polygon. */
  predicate Derived(q: Quad) {
    q.poly.Some? && q.rect == Some(BoundingRect(q.poly.value))
  }

  /** The corner setters `setTopLeft` ... `setBottomLeft`: each writes its
      corner field and the matching slot of `vertices`, and nothing else. */
  function SetCorner(q: Quad, d: Direction, p: Option<Point>): (r: Quad)
    ensures r.corners.Get(d) == p && r.vertices.Get(d) == p
    ensures forall e :: e != d ==> r.corners.Get(e) == q.corners.Get(e)
    ensures forall e :: e != d ==> r.vertices.Get(e) == q.vertices.Get(e)
    ensures r.poly == q.poly && r.rect == q.rect && r.denaturated == q.denaturated
  {
    q.(corners := q.corners.With(d, p), vertices := q.vertices.With(d, p))
  }

  /** A quadrant bucket yields a corner when it holds one or two vertices. */
  predicate Resolvable(b: seq<Point>) {
    |b| == 1 || |b| == 2
  }

  /** The per-quadrant case analysis of `healPoly`: a single vertex is the
      corner, two vertices give their hidden point, any other count gives no
      corner. */
  function Resolve(b: seq<Point>, d: Direction): (r: Option<Point>)
    ensures r.Some? <==> Resolvable(b)
    ensures |b| == 1 ==> r == Some(b[0])
    ensures |b| == 2 ==> r == Some(FindHiddenPoint(b[0], b[1], d))
    ensures r.Some? ==> exists i :: 0 <= i < |b| && b[i].x == r.value.x
    ensures r.Some? ==> exists i :: 0 <= i < |b| && b[i].y == r.value.y
  {
    if |b| == 1 then Some(b[0])
    else if |b| == 2 then
      var h := FindHiddenPoint(b[0], b[1], d);
      assert h.x == b[0].x || h.x == b[1].x;
      assert h.y == b[0].y || h.y == b[1].y;
      Some(h)
    else None
  }

  function AsSeq(o: Option<Point>): seq<Point> {
    if o.Some? then [o.value] else []
  }

  /** The polygon built from four optional points, in the given order,
      skipping the absent ones. */
  function Assemble(a: Option<Point>, b: Option<Point>, c: Option<Point>, d: Option<Point>): (r: seq<Point>)
    ensures |r| == |AsSeq(a)| + |AsSeq(b)| + |AsSeq(c)| + |AsSeq(d)|
    ensures forall p :: p in r <==> Some(p) in [a, b, c, d]
    ensures a.Some? && b.Some? && c.Some? && d.Some? ==> r == [a.value, b.value, c.value, d.value]
  {
    AsSeq(a) + AsSeq(b) + AsSeq(c) + AsSeq(d)
  }

  /** The centre `healPoly` classifies around: the centre of the bounding
      rectangle of the raw input. */
  function ClassificationCentre(raw: seq<Point>): (c: Point)
    ensures var b := BoundingRect(raw); 0 <= 2 * (c.x - b.x) <= b.width < 2 * (c.x - b.x) + 2
    ensures var b := BoundingRect(raw); 0 <= 2 * (c.y - b.y) <= b.height < 2 * (c.y - b.y) + 2
    ensures |raw| > 0 ==> Contains(BoundingRect(raw), c)
  {
    Center(BoundingRect(raw))
  }

  function QuadrantBucket(raw: seq<Point>, d: Direction): seq<Point> {
    Bucket(raw, ClassificationCentre(raw), d)
  }

  function ResolveQuadrant(raw: seq<Point>, d: Direction): Option<Point> {
    Resolve(QuadrantBucket(raw, d), d)
  }

  function Indicator(b: bool): nat {
    if b then 1 else 0
  }

  /** The corner field `d` after healing: the quadrant's corner when it
      resolves, the previous value otherwise. */
  function HealedCorner(prior: Corners, raw: seq<Point>, d: Direction): (r: Option<Point>)
    ensures Resolvable(QuadrantBucket(raw, d)) ==> r == ResolveQuadrant(raw, d) && r.Some?
    ensures !Resolvable(QuadrantBucket(raw, d)) ==> r == prior.Get(d)
  {
    var found := ResolveQuadrant(raw, d);
    if found.Some? then found else prior.Get(d)
  }

  /** The corner fields after healing: each quadrant that resolves gets its
      corner, every other quadrant keeps the corner it had. */
  function HealCorners(prior: Corners, raw: seq<Point>): (r: Corners)
    ensures forall d :: r.Get(d) == HealedCorner(prior, raw, d)
  {
    Corners(HealedCorner(prior, raw, TopLeft), HealedCorner(prior, raw, TopRight),
            HealedCorner(prior, raw, BottomRight), HealedCorner(prior, raw, BottomLeft))
  }

  /** Some quadrant of the raw input does not resolve. */
  predicate AnyUnresolved(raw: seq<Point>) {
    exists d :: !Resolvable(QuadrantBucket(raw, d))
  }

  /** The polygon `healPoly` returns: the corners of the quadrants that
      resolve, in the order top-left, top-right, bottom-right, bottom-left. */
  function HealedPoly(raw: seq<Point>): (poly: seq<Point>)
    ensures |poly| == Indicator(Resolvable(QuadrantBucket(raw, TopLeft)))
                    + Indicator(Resolvable(QuadrantBucket(raw, TopRight)))
                    + Indicator(Resolvable(QuadrantBucket(raw, BottomRight)))
                    + Indicator(Resolvable(QuadrantBucket(raw, BottomLeft)))
    ensures |poly| <= 4
    ensures !AnyUnresolved(raw) ==> |poly| == 4
  {
    var tl := ResolveQuadrant(raw, TopLeft);
    var tr := ResolveQuadrant(raw, TopRight);
    var br := ResolveQuadrant(raw, BottomRight);
    var bl := ResolveQuadrant(raw, BottomLeft);
    assert !AnyUnresolved(raw) ==>
      && Resolvable(QuadrantBucket(raw, TopLeft)) && Resolvable(QuadrantBucket(raw, TopRight))
      && Resolvable(QuadrantBucket(raw, BottomRight)) && Resolvable(QuadrantBucket(raw, BottomLeft));
    Assemble(tl, tr, br, bl)
  }

  /** The healed polygon holds exactly the corners of the quadrants that
      resolve. */
  lemma HealedPolyMembers(raw: seq<Point>, p: Point)
    ensures p in HealedPoly(raw) <==> exists d :: ResolveQuadrant(raw, d) == Some(p)
  {
    var tl, tr := ResolveQuadrant(raw, TopLeft), ResolveQuadrant(raw, TopRight);
    var br, bl := ResolveQuadrant(raw, BottomRight), ResolveQuadrant(raw, BottomLeft);
    var poly := HealedPoly(raw);
    assert poly == Assemble(tl, tr, br, bl);
    assert p in poly <==> Some(p) in [tl, tr, br, bl];
    if p in poly {
      if tl == Some(p) {
        assert ResolveQuadrant(raw, TopLeft) == Some(p);
      } else if tr == Some(p) {
        assert ResolveQuadrant(raw, TopRight) == Some(p);
      } else if br == Some(p) {
        assert ResolveQuadrant(raw, BottomRight) == Some(p);
      } else {
        assert ResolveQuadrant(raw, BottomLeft) == Some(p);
      }
    }
    if exists d :: ResolveQuadrant(raw, d) == Some(p) {
      var d :| ResolveQuadrant(raw, d) == Some(p);
      QuadrantCornerListed(raw, d);
    }
  }

  /** Each quadrant's resolution is one of the four candidates the polygon
      is assembled from. */
  lemma QuadrantCornerListed(raw: seq<Point>, d: Direction)
    ensures ResolveQuadrant(raw, d) in [ResolveQuadrant(raw, TopLeft), ResolveQuadrant(raw, TopRight),
                                        ResolveQuadrant(raw, BottomRight), ResolveQuadrant(raw, BottomLeft)]
  {
    match d
    case TopLeft =>
    case TopRight =>
    case BottomRight =>
    case BottomLeft =>
  }

  /** A resolved corner lies in the quadrant it was resolved for: its x comes
      from one vertex of the bucket and its y from another, and every vertex
      of the bucket is on the same side of both centre lines. */
  lemma ResolvedCornerInOwnQuadrant(raw: seq<Point>, d: Direction)
    requires ResolveQuadrant(raw, d).Some?
    ensures Classify(ResolveQuadrant(raw, d).value, ClassificationCentre(raw)) == d
  {
    var c, b, p := ClassificationCentre(raw), QuadrantBucket(raw, d), ResolveQuadrant(raw, d).value;
    var i :| 0 <= i < |b| && b[i].x == p.x;
    var j :| 0 <= j < |b| && b[j].y == p.y;
    assert Classify(b[i], c) == d && Classify(b[j], c) == d;
    assert IsRight(Classify(p, c)) == IsRight(d);
    assert IsTop(Classify(p, c)) == IsTop(d);
  }

  /** Appending the (optional) corner of quadrant `d` to a polygon whose
      points all lie in lower-ranked quadrants keeps the quadrant order. */
  lemma AppendInOrder(s: seq<Point>, o: Option<Point>, c: Point, d: Direction, t: seq<Point>)
    requires InQuadrantOrder(s, c) && RanksAtMost(s, c, Rank(d) - 1)
    requires o.Some? ==> Classify(o.value, c) == d
    requires t == s + AsSeq(o)
    ensures InQuadrantOrder(t, c) && RanksAtMost(t, c, Rank(d))
  {
    forall i, j | 0 <= i < j < |t|
      ensures Rank(Classify(t[i], c)) < Rank(Classify(t[j], c))
    {
      if j == |s| {
        assert t[i] == s[i] && t[j] == o.value;
      } else {
        assert t[i] == s[i] && t[j] == s[j];
      }
    }
  }

  /** Four optional corners, each in its own quadrant, assemble into a
      polygon in quadrant order. */
  lemma AssembleInOrder(tl: Option<Point>, tr: Option<Point>, br: Option<Point>, bl: Option<Point>, c: Point)
    requires tl.Some? ==> Classify(tl.value, c) == TopLeft
    requires tr.Some? ==> Classify(tr.value, c) == TopRight
    requires br.Some? ==> Classify(br.value, c) == BottomRight
    requires bl.Some? ==> Classify(bl.value, c) == BottomLeft
    ensures InQuadrantOrder(Assemble(tl, tr, br, bl), c)
  {
    var s1 := AsSeq(tl);
    var s2 := s1 + AsSeq(tr);
    var s3 := s2 + AsSeq(br);
    var s4 := s3 + AsSeq(bl);
    AppendInOrder([], tl, c, TopLeft, s1);
    AppendInOrder(s1, tr, c, TopRight, s2);
    AppendInOrder(s2, br, c, BottomRight, s3);
    AppendInOrder(s3, bl, c, BottomLeft, s4);
  }

  /** The healed polygon lists its corners in clockwise quadrant order
      starting at the top-left, so no quadrant appears twice. */
  lemma HealedPolyOrder(raw: seq<Point>)
    ensures InQuadrantOrder(HealedPoly(raw), ClassificationCentre(raw))
  {
    var tl, tr := ResolveQuadrant(raw, TopLeft), ResolveQuadrant(raw, TopRight);
    var br, bl := ResolveQuadrant(raw, BottomRight), ResolveQuadrant(raw, BottomLeft);
    if tl.Some? { ResolvedCornerInOwnQuadrant(raw, TopLeft); }
    if tr.Some? { ResolvedCornerInOwnQuadrant(raw, TopRight); }
    if br.Some? { ResolvedCornerInOwnQuadrant(raw, BottomRight); }
    if bl.Some? { ResolvedCornerInOwnQuadrant(raw, BottomLeft); }
    AssembleInOrder(tl, tr, br, bl, ClassificationCentre(raw));
  }

  /** Every point of the healed polygon is the corner resolved for the
      quadrant it lies in. */
  lemma HealedPolyPointsInOwnQuadrant(raw: seq<Point>)
    ensures forall i :: 0 <= i < |HealedPoly(raw)| ==>
              ResolveQuadrant(raw, Classify(HealedPoly(raw)[i], ClassificationCentre(raw))) == Some(HealedPoly(raw)[i])
  {
    var c, poly := ClassificationCentre(raw), HealedPoly(raw);
    forall i | 0 <= i < |poly|
      ensures ResolveQuadrant(raw, Classify(poly[i], c)) == Some(poly[i])
    {
      HealedPolyMembers(raw, poly[i]);
      var d :| ResolveQuadrant(raw, d) == Some(poly[i]);
      ResolvedCornerInOwnQuadrant(raw, d);
    }
  }

  datatype Healing = Healing(quad: Quad, poly: seq<Point>)

  /** `healPoly`: classify the raw vertices, resolve every quadrant
      independently, and list the corners found. A quadrant that does not
      resolve sets the flag and leaves its corner field as it was; the flag
      is never cleared. The returned polygon is not yet stored in the
      object. */
  function Heal(q: Quad, raw: seq<Point>): (h: Healing)
    ensures h.quad.corners == HealCorners(q.corners, raw)
    ensures h.quad.denaturated <==> q.denaturated || AnyUnresolved(raw)
    ensures h.poly == HealedPoly(raw)
    ensures h.quad.vertices == q.vertices && h.quad.poly == q.poly && h.quad.rect == q.rect
  {
    var failed := ResolveQuadrant(raw, TopLeft).None? || ResolveQuadrant(raw, TopRight).None?
               || ResolveQuadrant(raw, BottomRight).None? || ResolveQuadrant(raw, BottomLeft).None?;
    assert AnyUnresolved(raw) ==> failed by {
      if AnyUnresolved(raw) {
        var d :| !Resolvable(QuadrantBucket(raw, d));
        assert ResolveQuadrant(raw, d).None?;
      }
    }
    Healing(q.(corners := HealCorners(q.corners, raw), denaturated := q.denaturated || failed),
            HealedPoly(raw))
  }

  /** `fromMatOfPoint`: heal the raw vertices into the object, store the
      healed polygon, copy it into `vertices` when the object is not
      denaturated, and recompute the bounding rectangle from the healed
      polygon (even when denaturated). */
  function FromMatOfPoint(q: Quad, raw: seq<Point>): (r: Quad)
    ensures Derived(r)
    ensures r.poly == Some(Heal(q, raw).poly)
    ensures r.corners == Heal(q, raw).quad.corners
    ensures r.denaturated == Heal(q, raw).quad.denaturated
    ensures !r.denaturated ==> r.vertices == r.corners
    ensures !r.denaturated ==> r.poly == Some([r.corners.topLeft.value, r.corners.topRight.value,
                                               r.corners.bottomRight.value, r.corners.bottomLeft.value])
    ensures r.denaturated ==> r.vertices == q.vertices
  {
    var h := Heal(q, raw);
    var vertices :=
      if h.quad.denaturated then q.vertices
      else Corners(Some(h.poly[0]), Some(h.poly[1]), Some(h.poly[2]), Some(h.poly[3]));
    h.quad.(vertices := vertices, poly := Some(h.poly), rect := Some(BoundingRect(h.poly)))
  }

  /** `getWidth`: the width of the current bounding rectangle, which spans
      the polygon from its leftmost to its rightmost vertex; zero exactly when
      the polygon is empty. */
  function Width(q: Quad): (w: nat)
    requires q.rect.Some?
    ensures Derived(q) ==> (w == 0 <==> |q.poly.value| == 0)
    ensures Derived(q) ==> forall p :: p in q.poly.value ==> q.rect.value.x <= p.x < q.rect.value.x + w
    ensures Derived(q) && |q.poly.value| > 0 ==> exists p :: p in q.poly.value && p.x == q.rect.value.x + w - 1
  {
    q.rect.value.width
  }

  /** `getHeight`: the height of the current bounding rectangle, which spans
      the polygon from its top to its bottom vertex; zero exactly when the
      polygon is empty. */
  function Height(q: Quad): (h: nat)
    requires q.rect.Some?
    ensures Derived(q) ==> (h == 0 <==> |q.poly.value| == 0)
    ensures Derived(q) ==> forall p :: p in q.poly.value ==> q.rect.value.y <= p.y < q.rect.value.y + h
    ensures Derived(q) && |q.poly.value| > 0 ==> exists p :: p in q.poly.value && p.y == q.rect.value.y + h - 1
  {
    q.rect.value.height
  }

  /** `getCenter`: recomputed from the current rectangle on every call; for
      a non-empty polygon it lies within the polygon's bounding rectangle. */
  function GetCenter(q: Quad): (c: Point)
    requires q.rect.Some?
    ensures c == Center(q.rect.value)
    ensures Derived(q) && |q.poly.value| > 0 ==> Contains(q.rect.value, c)
  {
    Center(q.rect.value)
  }

  /** `lineUp`: the two centres are less than 5 pixels apart horizontally. */
  function LineUp(q1: Quad, q2: Quad): (b: bool)
    requires q1.rect.Some? && q2.rect.Some?
    ensures b <==> -5 < GetCenter(q1).x - GetCenter(q2).x < 5
  {
    var dx := GetCenter(q1).x - GetCenter(q2).x;
    (if dx < 0 then -dx else dx) < 5
  }

  /** `setPoly` with its evident intent: a new polygon of the corners in the
      order bottom-left, bottom-right, top-left, top-right, and the bounding
      rectangle recomputed from it. Absent corners are skipped, as healing
      skips unresolved quadrants. */
  function SetPoly(q: Quad): (r: Quad)
    ensures Derived(r)
    ensures r.poly == Some(Assemble(q.corners.bottomLeft, q.corners.bottomRight,
                                    q.corners.topLeft, q.corners.topRight))
    ensures r.corners == q.corners && r.vertices == q.vertices && r.denaturated == q.denaturated
  {
    var poly := Assemble(q.corners.bottomLeft, q.corners.bottomRight, q.corners.topLeft, q.corners.topRight);
    q.(poly := Some(poly), rect := Some(BoundingRect(poly)))
  }

  datatype Fault = NullPointer

  /** `setPoly` as written: it refills the existing `poly` matrix, so it
      dereferences a null `poly` on an object that was never healed, and the
      OpenCV list conversion dereferences every corner, so a null corner
      fails too. When it succeeds it agrees with `SetPoly`. */
  function SetPolyAsWritten(q: Quad): (r: Result<Quad, Fault>)
    ensures r.Success? <==> q.poly.Some? && q.corners.topLeft.Some? && q.corners.topRight.Some?
                            && q.corners.bottomRight.Some? && q.corners.bottomLeft.Some?
    ensures r.Success? ==> r.value == SetPoly(q) && |r.value.poly.value| == 4
  {
    if q.poly.None? then Failure(NullPointer)
    else if q.corners.bottomLeft.None? || q.corners.bottomRight.None?
         || q.corners.topLeft.None? || q.corners.topRight.None? then Failure(NullPointer)
    else Success(SetPoly(q))
  }

  /** The quadrilateral with the larger centre y is the lower one. On equal
      centre y the second argument counts as lower. */
  function Lower(q1: Quad, q2: Quad): Quad
    requires q1.rect.Some? && q2.rect.Some?
  {
    if GetCenter(q1).y > GetCenter(q2).y then q1 else q2
  }

  function Upper(q1: Quad, q2: Quad): Quad
    requires q1.rect.Some? && q2.rect.Some?
  {
    if GetCenter(q1).y > GetCenter(q2).y then q2 else q1
  }

  /** The corner assignments `merge` makes on its fresh object, in the
      source's order: bottoms from the lower quadrilateral, tops from the
      upper one. */
  function MergedCorners(q1: Quad, q2: Quad): (r: Quad)
    requires q1.rect.Some? && q2.rect.Some?
    ensures r.corners == r.vertices
    ensures r.poly.None? && r.rect.None? && !r.denaturated
  {
    var lower, upper := Lower(q1, q2), Upper(q1, q2);
    var q0 := SetCorner(Fresh, BottomLeft, lower.corners.bottomLeft);
    var q1 := SetCorner(q0, BottomRight, lower.corners.bottomRight);
    var q2 := SetCorner(q1, TopLeft, upper.corners.topLeft);
    SetCorner(q2, TopRight, upper.corners.topRight)
  }

  /** `merge` as written: the fresh object's `poly` is still null when
      `setPoly` dereferences it, so every call fails. */
  function MergeAsWritten(q1: Quad, q2: Quad): (r: Result<Quad, Fault>)
    requires q1.rect.Some? && q2.rect.Some?
    ensures r == Failure(NullPointer)
  {
    SetPolyAsWritten(MergedCorners(q1, q2))
  }

  /** `merge` with its evident intent (the null `poly` of the fresh object is
      replaced by a new polygon): the bottom corners of the lower
      quadrilateral and the top corners of the upper one, the polygon
      bottom-left, bottom-right, top-left, top-right, its bounding rectangle,
      and a flag that keeps its initial false. */
  function Merge(q1: Quad, q2: Quad): (r: Quad)
    requires q1.rect.Some? && q2.rect.Some?
    ensures GetCenter(q1).y > GetCenter(q2).y ==>
      r.corners == Corners(q2.corners.topLeft, q2.corners.topRight,
                           q1.corners.bottomRight, q1.corners.bottomLeft)
    ensures GetCenter(q1).y <= GetCenter(q2).y ==>
      r.corners == Corners(q1.corners.topLeft, q1.corners.topRight,
                           q2.corners.bottomRight, q2.corners.bottomLeft)
    ensures r.vertices == r.corners
    ensures Derived(r)
    ensures r.poly == Some(Assemble(r.corners.bottomLeft, r.corners.bottomRight,
                                    r.corners.topLeft, r.corners.topRight))
    ensures !r.denaturated
  {
    SetPoly(MergedCorners(q1, q2))
  }
}
