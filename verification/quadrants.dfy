/** Classification of raw vertices into the four quadrants around a centre
    point (the `PolyDirection` enum and the bucketing loop of `healPoly`).

    Image coordinates grow rightwards in x and downwards in y, so "bottom"
    means a larger y. Both tests are strict: a vertex exactly on a centre line
    is classified left and/or top.
 */
module Quadrants {
  import opened Geometry

  datatype Direction = TopLeft | TopRight | BottomRight | BottomLeft

  predicate IsTop(d: Direction) {
    d == TopLeft || d == TopRight
  }

  predicate IsRight(d: Direction) {
    d == TopRight || d == BottomRight
  }

  /** The position of a quadrant in the clockwise order top-left, top-right,
      bottom-right, bottom-left. */
  function Rank(d: Direction): nat {
    match d
    case TopLeft => 0
    case TopRight => 1
    case BottomRight => 2
    case BottomLeft => 3
  }

  /** The points of `s` lie in strictly increasing quadrant rank around `c`. */
  predicate InQuadrantOrder(s: seq<Point>, c: Point) {
    forall i, j :: 0 <= i < j < |s| ==> Rank(Classify(s[i], c)) < Rank(Classify(s[j], c))
  }

  /** No point of `s` lies in a quadrant ranked above `k`. */
  predicate RanksAtMost(s: seq<Point>, c: Point, k: int) {
    forall i :: 0 <= i < |s| ==> Rank(Classify(s[i], c)) <= k
  }

  /** The quadrant of `p` relative to the centre `c`. */
  function Classify(p: Point, c: Point): (d: Direction)
    ensures IsRight(d) <==> p.x > c.x
    ensures IsTop(d) <==> p.y <= c.y
  {
    if p.x > c.x then
      if p.y > c.y then BottomRight else TopRight
    else
      if p.y > c.y then BottomLeft else TopLeft
  }

  /** The vertices of `s` that fall into quadrant `d`, in input order; this is
      the list that the bucketing loop builds for `d`. */
  function Bucket(s: seq<Point>, c: Point, d: Direction): (b: seq<Point>)
    ensures |b| <= |s|
    ensures forall i :: 0 <= i < |b| ==> Classify(b[i], c) == d
    decreases |s|
  {
    if |s| == 0 then []
    else
      var front := Bucket(s[..|s| - 1], c, d);
      if Classify(s[|s| - 1], c) == d then front + [s[|s| - 1]] else front
  }

  /** Appending a vertex extends only the bucket of its own quadrant. */
  lemma BucketAppend(s: seq<Point>, p: Point, c: Point, d: Direction)
    ensures Bucket(s + [p], c, d) == Bucket(s, c, d) + (if Classify(p, c) == d then [p] else [])
  {
    assert (s + [p])[..|s|] == s;
  }

  /** A vertex is in bucket `d` exactly when it is an input vertex that
      classifies into `d`. */
  lemma {:induction false} BucketMembership(s: seq<Point>, c: Point, d: Direction, p: Point)
    ensures p in Bucket(s, c, d) <==> p in s && Classify(p, c) == d
    decreases |s|
  {
    if |s| > 0 {
      var front := s[..|s| - 1];
      BucketMembership(front, c, d, p);
      assert s == front + [s[|s| - 1]];
    }
  }

  /** The four buckets partition the input: every vertex lands in exactly one
      of them, so together they hold the input's vertices with their
      multiplicities, and their sizes add up to the input length. */
  lemma BucketsPartition(s: seq<Point>, c: Point)
    ensures multiset(Bucket(s, c, TopLeft)) + multiset(Bucket(s, c, TopRight))
          + multiset(Bucket(s, c, BottomRight)) + multiset(Bucket(s, c, BottomLeft))
          == multiset(s)
    ensures |Bucket(s, c, TopLeft)| + |Bucket(s, c, TopRight)|
          + |Bucket(s, c, BottomRight)| + |Bucket(s, c, BottomLeft)| == |s|
  {
    BucketsPartitionMultiset(s, c);
    assert |AllBuckets(s, c)| == |s|;
  }

  /** The four buckets together, as a multiset. */
  function AllBuckets(s: seq<Point>, c: Point): multiset<Point> {
    multiset(Bucket(s, c, TopLeft)) + multiset(Bucket(s, c, TopRight))
    + multiset(Bucket(s, c, BottomRight)) + multiset(Bucket(s, c, BottomLeft))
  }

  lemma BucketAppendMultiset(s: seq<Point>, p: Point, c: Point, d: Direction)
    ensures multiset(Bucket(s + [p], c, d))
         == multiset(Bucket(s, c, d)) + (if Classify(p, c) == d then multiset{p} else multiset{})
  {
    BucketAppend(s, p, c, d);
    if Classify(p, c) == d {
      assert Bucket(s + [p], c, d) == Bucket(s, c, d) + [p];
    } else {
      assert Bucket(s + [p], c, d) == Bucket(s, c, d);
    }
  }

  /** Appending a vertex adds it to exactly one bucket. */
  lemma AllBucketsAppend(s: seq<Point>, p: Point, c: Point)
    ensures AllBuckets(s + [p], c) == AllBuckets(s, c) + multiset{p}
  {
    BucketAppendMultiset(s, p, c, TopLeft);
    BucketAppendMultiset(s, p, c, TopRight);
    BucketAppendMultiset(s, p, c, BottomRight);
    BucketAppendMultiset(s, p, c, BottomLeft);
  }

  lemma {:induction false} BucketsPartitionMultiset(s: seq<Point>, c: Point)
    ensures AllBuckets(s, c) == multiset(s)
    decreases |s|
  {
    if |s| > 0 {
      var front, p := s[..|s| - 1], s[|s| - 1];
      BucketsPartitionMultiset(front, c);
      AllBucketsAppend(front, p, c);
      assert s == front + [p];
    }
  }

  /** The bucketing loop of `healPoly`: one pass over the raw vertices,
      appending each to the list of its quadrant. */
  method ClassifyVertices(raw: seq<Point>, c: Point)
    returns (topLeft: seq<Point>, topRight: seq<Point>, bottomRight: seq<Point>, bottomLeft: seq<Point>)
    ensures topLeft == Bucket(raw, c, TopLeft)
    ensures topRight == Bucket(raw, c, TopRight)
    ensures bottomRight == Bucket(raw, c, BottomRight)
    ensures bottomLeft == Bucket(raw, c, BottomLeft)
  {
    topLeft, topRight, bottomRight, bottomLeft := [], [], [], [];
    var i := 0;
    while i < |raw|
      invariant 0 <= i <= |raw|
      invariant topLeft == Bucket(raw[..i], c, TopLeft)
      invariant topRight == Bucket(raw[..i], c, TopRight)
      invariant bottomRight == Bucket(raw[..i], c, BottomRight)
      invariant bottomLeft == Bucket(raw[..i], c, BottomLeft)
    {
      var v := raw[i];
      assert raw[..i + 1][..i] == raw[..i];
      if v.x > c.x {
        if v.y > c.y {
          bottomRight := bottomRight + [v];
        } else {
          topRight := topRight + [v];
        }
      } else {
        if v.y > c.y {
          bottomLeft := bottomLeft + [v];
        } else {
          topLeft := topLeft + [v];
        }
      }
      i := i + 1;
    }
    assert raw[..|raw|] == raw;
  }
}
