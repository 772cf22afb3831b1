/** Properties relating several calls of the quadrilateral operations:
    what healing a raw vertex list guarantees, and the alignment and merge
    symmetries.
 */
module QuadrilateralFacts {
  import opened Optional
  import opened Geometry
  import opened Quadrants
  import opened HiddenPoint
  import opened Quadrilateral

  /** Healing a fresh object flags it exactly when some quadrant does not hold
      one or two raw vertices; each corner is set exactly when its quadrant
      resolves. */
  lemma FreshHealDenaturatedIff(raw: seq<Point>, d: Direction)
    ensures FromMatOfPoint(Fresh, raw).denaturated <==> exists e :: !Resolvable(QuadrantBucket(raw, e))
    ensures FromMatOfPoint(Fresh, raw).corners.Get(d).Some? <==> Resolvable(QuadrantBucket(raw, d))
  {
    assert Fresh.corners.Get(d) == None;
  }

  /** The flag is sticky: healing never clears it. */
  lemma DenaturatedIsSticky(q: Quad, raw: seq<Point>)
    requires q.denaturated
    ensures FromMatOfPoint(q, raw).denaturated
    ensures FromMatOfPoint(q, raw).vertices == q.vertices
  {
  }

  /** A quadrant's corner depends on that quadrant's bucket alone: two raw
      inputs whose buckets for `d` agree heal to the same corner `d`. */
  lemma QuadrantsAreIndependent(q: Quad, raw1: seq<Point>, raw2: seq<Point>, d: Direction)
    requires QuadrantBucket(raw1, d) == QuadrantBucket(raw2, d)
    ensures FromMatOfPoint(q, raw1).corners.Get(d) == FromMatOfPoint(q, raw2).corners.Get(d)
  {
  }

  /** A healed object that is not flagged came from four to eight raw
      vertices: each of the four buckets held one or two of them, and the
      buckets partition the input. */
  lemma HealedVertexCount(q: Quad, raw: seq<Point>)
    requires !FromMatOfPoint(q, raw).denaturated
    ensures 4 <= |raw| <= 8
    ensures |FromMatOfPoint(q, raw).poly.value| == 4
  {
    BucketsPartition(raw, ClassificationCentre(raw));
    assert !AnyUnresolved(raw);
    assert Resolvable(QuadrantBucket(raw, TopLeft));
    assert Resolvable(QuadrantBucket(raw, TopRight));
    assert Resolvable(QuadrantBucket(raw, BottomRight));
    assert Resolvable(QuadrantBucket(raw, BottomLeft));
  }

  /** A corner resolved from a quadrant lies in the raw input's bounding
      rectangle: its x and y are each taken from a raw vertex. */
  lemma ResolvedCornerInsideRawBox(raw: seq<Point>, d: Direction)
    requires ResolveQuadrant(raw, d).Some?
    ensures Contains(BoundingRect(raw), ResolveQuadrant(raw, d).value)
  {
    var c := ClassificationCentre(raw);
    var b := QuadrantBucket(raw, d);
    var r := ResolveQuadrant(raw, d).value;
    var i :| 0 <= i < |b| && b[i].x == r.x;
    var j :| 0 <= j < |b| && b[j].y == r.y;
    BucketMembership(raw, c, d, b[i]);
    BucketMembership(raw, c, d, b[j]);
    var i' :| 0 <= i' < |raw| && raw[i'] == b[i];
    var j' :| 0 <= j' < |raw| && raw[j'] == b[j];
    assert Contains(BoundingRect(raw), raw[i']);
    assert Contains(BoundingRect(raw), raw[j']);
  }

  /** Every vertex of the healed polygon lies in the raw input's bounding
      rectangle, so healing never moves a corner outside the target. */
  lemma HealedPolyInsideRawBox(q: Quad, raw: seq<Point>)
    ensures forall p :: p in FromMatOfPoint(q, raw).poly.value ==> Contains(BoundingRect(raw), p)
  {
    var poly := Heal(q, raw).poly;
    assert FromMatOfPoint(q, raw).poly.value == poly;
    forall p | p in poly
      ensures Contains(BoundingRect(raw), p)
    {
      HealedPointInsideRawBox(q, raw, p);
    }
  }

  lemma HealedPointInsideRawBox(q: Quad, raw: seq<Point>, p: Point)
    requires p in Heal(q, raw).poly
    ensures Contains(BoundingRect(raw), p)
  {
    HealedPolyMembers(raw, p);
    var d :| ResolveQuadrant(raw, d) == Some(p);
    ResolvedCornerInsideRawBox(raw, d);
  }

  /** A quadrant holding a single raw vertex gets that vertex as its corner,
      and the vertex does lie in that quadrant. */
  lemma SingleVertexIsCorner(q: Quad, raw: seq<Point>, d: Direction)
    requires |QuadrantBucket(raw, d)| == 1
    ensures var p := QuadrantBucket(raw, d)[0];
      && FromMatOfPoint(q, raw).corners.Get(d) == Some(p)
      && p in raw && Classify(p, ClassificationCentre(raw)) == d
  {
    BucketMembership(raw, ClassificationCentre(raw), d, QuadrantBucket(raw, d)[0]);
  }

  /** A quadrant holding two raw vertices gets the hidden point of the pair,
      taken in input order, as its corner; that corner lies in the same
      quadrant although it need not be a raw vertex. */
  lemma TwoVerticesGiveHiddenPoint(q: Quad, raw: seq<Point>, d: Direction)
    requires |QuadrantBucket(raw, d)| == 2
    ensures var b := QuadrantBucket(raw, d);
      && FromMatOfPoint(q, raw).corners.Get(d) == Some(FindHiddenPoint(b[0], b[1], d))
      && b[0] in raw && b[1] in raw
      && Classify(FindHiddenPoint(b[0], b[1], d), ClassificationCentre(raw)) == d
  {
    var b := QuadrantBucket(raw, d);
    BucketMembership(raw, ClassificationCentre(raw), d, b[0]);
    BucketMembership(raw, ClassificationCentre(raw), d, b[1]);
    ResolvedCornerInOwnQuadrant(raw, d);
  }

  /** Four raw vertices, one in each quadrant, heal on a fresh object into an
      unflagged quadrilateral whose corners are those vertices. */
  lemma OneVertexPerQuadrant(raw: seq<Point>)
    requires forall d :: |QuadrantBucket(raw, d)| == 1
    ensures |raw| == 4
    ensures !FromMatOfPoint(Fresh, raw).denaturated
    ensures forall d :: FromMatOfPoint(Fresh, raw).corners.Get(d) == Some(QuadrantBucket(raw, d)[0])
  {
    BucketsPartition(raw, ClassificationCentre(raw));
    assert |QuadrantBucket(raw, TopLeft)| == 1 && |QuadrantBucket(raw, TopRight)| == 1;
    assert |QuadrantBucket(raw, BottomRight)| == 1 && |QuadrantBucket(raw, BottomLeft)| == 1;
    assert !AnyUnresolved(raw);
  }

  /** The square (0,0), (10,0), (10,10), (0,10): its bounding rectangle is
      11 by 11 pixels, the centre (5, 5), and each vertex becomes the corner
      of its own quadrant. */
  lemma SquareExample(raw: seq<Point>)
    requires raw == [Point(0, 0), Point(10, 0), Point(10, 10), Point(0, 10)]
    ensures ClassificationCentre(raw) == Point(5, 5)
    ensures !FromMatOfPoint(Fresh, raw).denaturated
    ensures FromMatOfPoint(Fresh, raw).corners
         == Corners(Some(Point(0, 0)), Some(Point(10, 0)), Some(Point(10, 10)), Some(Point(0, 10)))
    ensures FromMatOfPoint(Fresh, raw).poly == Some(raw)
    ensures FromMatOfPoint(Fresh, raw).rect == Some(Rect(0, 0, 11, 11))
  {
    SquareBuckets(raw);
    SquareCorners(raw);
    SquareBoundingRect(raw);
  }

  lemma SquareCorners(raw: seq<Point>)
    requires raw == [Point(0, 0), Point(10, 0), Point(10, 10), Point(0, 10)]
    ensures !FromMatOfPoint(Fresh, raw).denaturated
    ensures FromMatOfPoint(Fresh, raw).corners == Corners(Some(raw[0]), Some(raw[1]), Some(raw[2]), Some(raw[3]))
    ensures FromMatOfPoint(Fresh, raw).poly == Some(raw)
  {
    SquareBuckets(raw);
    OneVertexPerQuadrant(raw);
    var r := FromMatOfPoint(Fresh, raw);
    var cs := r.corners;
    assert cs.topLeft == cs.Get(TopLeft) == Some(raw[0]);
    assert cs.topRight == cs.Get(TopRight) == Some(raw[1]);
    assert cs.bottomRight == cs.Get(BottomRight) == Some(raw[2]);
    assert cs.bottomLeft == cs.Get(BottomLeft) == Some(raw[3]);
    assert r.poly == Some([raw[0], raw[1], raw[2], raw[3]]);
    assert [raw[0], raw[1], raw[2], raw[3]] == raw;
  }

  lemma SquareBoundingRect(raw: seq<Point>)
    requires raw == [Point(0, 0), Point(10, 0), Point(10, 10), Point(0, 10)]
    ensures BoundingRect(raw) == Rect(0, 0, 11, 11)
  {
    var r := Rect(0, 0, 11, 11);
    assert raw[0].x == r.x && raw[0].y == r.y;
    assert raw[2].x == r.x + r.width - 1 && raw[2].y == r.y + r.height - 1;
    assert Tight(raw, r);
    BoundingRectUnique(raw, r);
  }

  lemma SquareBuckets(raw: seq<Point>)
    requires raw == [Point(0, 0), Point(10, 0), Point(10, 10), Point(0, 10)]
    ensures ClassificationCentre(raw) == Point(5, 5)
    ensures QuadrantBucket(raw, TopLeft) == [Point(0, 0)]
    ensures QuadrantBucket(raw, TopRight) == [Point(10, 0)]
    ensures QuadrantBucket(raw, BottomRight) == [Point(10, 10)]
    ensures QuadrantBucket(raw, BottomLeft) == [Point(0, 10)]
  {
    SquareBoundingRect(raw);
    var c := ClassificationCentre(raw);
    assert c == Point(5, 5);
    BucketsOfFourCorners(raw[0], raw[1], raw[2], raw[3], c);
    assert [raw[0], raw[1], raw[2], raw[3]] == raw;
  }

  /** Four vertices listed in quadrant order, one per quadrant, fill each
      bucket with exactly their own vertex. */
  lemma BucketsOfFourCorners(tl: Point, tr: Point, br: Point, bl: Point, c: Point)
    requires Classify(tl, c) == TopLeft && Classify(tr, c) == TopRight
    requires Classify(br, c) == BottomRight && Classify(bl, c) == BottomLeft
    ensures Bucket([tl, tr, br, bl], c, TopLeft) == [tl]
    ensures Bucket([tl, tr, br, bl], c, TopRight) == [tr]
    ensures Bucket([tl, tr, br, bl], c, BottomRight) == [br]
    ensures Bucket([tl, tr, br, bl], c, BottomLeft) == [bl]
  {
    BucketOfFour(tl, tr, br, bl, c, TopLeft);
    BucketOfFour(tl, tr, br, bl, c, TopRight);
    BucketOfFour(tl, tr, br, bl, c, BottomRight);
    BucketOfFour(tl, tr, br, bl, c, BottomLeft);
  }

  lemma BucketOfFour(tl: Point, tr: Point, br: Point, bl: Point, c: Point, d: Direction)
    ensures Bucket([tl, tr, br, bl], c, d)
         == (if Classify(tl, c) == d then [tl] else []) + (if Classify(tr, c) == d then [tr] else [])
          + (if Classify(br, c) == d then [br] else []) + (if Classify(bl, c) == d then [bl] else [])
  {
    var s0: seq<Point> := [];
    var s1 := s0 + [tl];
    var s2 := s1 + [tr];
    var s3 := s2 + [br];
    var s4 := s3 + [bl];
    BucketAppend(s0, tl, c, d);
    BucketAppend(s1, tr, c, d);
    BucketAppend(s2, br, c, d);
    BucketAppend(s3, bl, c, d);
    assert s4 == [tl, tr, br, bl];
  }

  /** Every quadrilateral lines up with itself. */
  lemma LineUpReflexive(q: Quad)
    requires q.rect.Some?
    ensures LineUp(q, q)
  {
  }

  /** Alignment does not depend on argument order. */
  lemma LineUpSymmetric(q1: Quad, q2: Quad)
    requires q1.rect.Some? && q2.rect.Some?
    ensures LineUp(q1, q2) <==> LineUp(q2, q1)
  {
  }

  /** When the centres differ in y the order of the arguments to merge does
      not matter. */
  lemma MergeSwap(q1: Quad, q2: Quad)
    requires q1.rect.Some? && q2.rect.Some?
    requires GetCenter(q1).y != GetCenter(q2).y
    ensures Merge(q1, q2) == Merge(q2, q1)
  {
  }

  /** On equal centre y merge takes the top corners from its first argument
      and the bottom corners from its second, so the order then matters. */
  lemma MergeTieTakesTopsFromFirst(q1: Quad, q2: Quad)
    requires q1.rect.Some? && q2.rect.Some?
    requires GetCenter(q1).y == GetCenter(q2).y
    ensures Merge(q1, q2).corners.topLeft == q1.corners.topLeft
    ensures Merge(q1, q2).corners.topRight == q1.corners.topRight
    ensures Merge(q1, q2).corners.bottomLeft == q2.corners.bottomLeft
    ensures Merge(q1, q2).corners.bottomRight == q2.corners.bottomRight
  {
  }

  /** Merge does not inspect the flags of its inputs. */
  lemma MergeIgnoresDenaturated(q1: Quad, q2: Quad, b1: bool, b2: bool)
    requires q1.rect.Some? && q2.rect.Some?
    ensures Merge(q1, q2) == Merge(q1.(denaturated := b1), q2.(denaturated := b2))
  {
  }

  /** Two halves with centres (50, 20) and (52, 80) line up, and merging
      them takes the upper half's top corners and the lower half's bottom
      corners. */
  lemma MergeUpperAndLowerHalves(q1: Quad, q2: Quad)
    requires q1.rect.Some? && q2.rect.Some?
    requires GetCenter(q1) == Point(50, 20) && GetCenter(q2) == Point(52, 80)
    ensures LineUp(q1, q2)
    ensures Merge(q1, q2).corners == Corners(q1.corners.topLeft, q1.corners.topRight,
                                             q2.corners.bottomRight, q2.corners.bottomLeft)
  {
  }

  /** Merging two quadrilaterals whose corners are all set gives a four-vertex polygon
      bottom-left, bottom-right, top-left, top-right. */
  lemma MergeOfHealedHasFourVertices(q1: Quad, q2: Quad)
    requires q1.rect.Some? && q2.rect.Some?
    requires q1.corners.topLeft.Some? && q1.corners.topRight.Some?
    requires q1.corners.bottomRight.Some? && q1.corners.bottomLeft.Some?
    requires q2.corners.topLeft.Some? && q2.corners.topRight.Some?
    requires q2.corners.bottomRight.Some? && q2.corners.bottomLeft.Some?
    ensures var m := Merge(q1, q2);
      m.poly == Some([m.corners.bottomLeft.value, m.corners.bottomRight.value,
                      m.corners.topLeft.value, m.corners.topRight.value])
  {
  }

  /** `merge` as written fails for every pair of inputs, whereas the
      intended merge always yields a polygon with its rectangle. */
  lemma MergeAsWrittenAlwaysFails(q1: Quad, q2: Quad)
    requires q1.rect.Some? && q2.rect.Some?
    ensures MergeAsWritten(q1, q2).Failure?
    ensures Derived(Merge(q1, q2))
  {
  }
}
