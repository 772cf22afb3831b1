# Quadrilateral healing and merge — a Dafny model

This project models the geometry core of a robot vision target tracker, the
class `org.team1635.vision.Quadrilateral`. Upstream contour detection hands it
a short, noisy list of integer vertices for a reflective target. The class
*heals* that list into a four-corner quadrilateral. It buckets the vertices
into four quadrants around the centre of their bounding rectangle. A quadrant
with one vertex gives that vertex as its corner. A quadrant with two vertices
gives a synthetic *hidden point*. Any other count marks the object
*denaturated* and leaves that corner unset. Two quadrilaterals can then be
tested for horizontal alignment (`lineUp`) and merged: the top corners come
from the upper one and the bottom corners from the lower one.

The Java object is modelled as an immutable value (`Quadrilateral.Quad`), and
each mutating method as a function from the old value to the new one. A field
that is still `null` on a fresh object is `None`. Modules:

- `Optional` (optional.dfy): `Option` and `Result`.
- `Geometry` (geometry.dfy): integer points, OpenCV-style rectangles, the
  bounding rectangle and the truncating centre.
- `Quadrants` (quadrants.dfy): `PolyDirection`, the classification rule and
  the bucketing loop.
- `HiddenPoint` (hidden_point.dfy): `findHiddenPoint`.
- `Quadrilateral` (quadrilateral.dfy): the entity, healing, setters, queries,
  `lineUp`, `setPoly` and `merge`.
- `QuadrilateralFacts` (quadrilateral_facts.dfy): lemmas that relate several
  calls.

`Imgproc.boundingRect` is an OpenCV call. It is modelled by the single
function `Geometry.BoundingRect`. For a non-empty list it is the least
rectangle covering the points, with width = max x − min x + 1 (OpenCV's
pixel-counting convention for integer points), and likewise for height. For
the empty list it is `EmptyRect`, the rectangle (0, 0, 0, 0) that OpenCV
returns for an empty point set. It is the only bounding rectangle with a zero
width, so an empty polygon stays recognisable (`EmptyRectOnlyForEmptyInput`).

Three consequences of the code are easy to misread:

- Hidden point. A top quadrant takes the smaller y, with the x of the
  candidate that has the larger y (Quadrilateral.java:168-175), as the
  comment at lines 166-167 says. So the top-left candidates (1,1) and (3,4)
  give (3,1) (`FindHiddenPointTopLeftExample`).
- The hidden point is symmetric in argument order only for distinct y
  values. On a y tie the else-branch returns the second candidate in a top
  quadrant and the first in a bottom quadrant
  (`FindHiddenPointTieDependsOnOrder`).
- The argument order of `merge` matters only when the centre y values are
  equal. On such a tie, the first argument supplies the tops
  (`MergeTieTakesTopsFromFirst`).

## Model

| member | source | states |
|---|---|---|
| Geometry.BoundingRect | Java/src/main/java/org/team1635/vision/Quadrilateral.java:78 | every point lies inside the rectangle; a point lies on each of its four edges; width and height are positive for a non-empty list; the empty list gives the (0,0,0,0) rectangle |
| Geometry.BoundingRectIsLeast | Java/src/main/java/org/team1635/vision/Quadrilateral.java:53-55 | any rectangle covering all the points also covers the bounding rectangle |
| Geometry.BoundingRectUnique | Java/src/main/java/org/team1635/vision/Quadrilateral.java:53-55 | a covering rectangle with a point on each of its edges is the bounding rectangle, so the bounding rectangle is determined by containment and tightness alone |
| Geometry.EmptyRectOnlyForEmptyInput | Java/src/main/java/org/team1635/vision/Quadrilateral.java:53-55 | the bounding rectangle has zero width (or height) exactly when the polygon is empty |
| Geometry.Center | Java/src/main/java/org/team1635/vision/Quadrilateral.java:79 | the centre's offset from the left edge is the width halved with truncation (0 <= 2·dx <= width < 2·dx + 2), and likewise vertically |
| Geometry.CenterInside | Java/src/main/java/org/team1635/vision/Quadrilateral.java:239-241 | the centre of a non-empty rectangle is one of its pixels |
| Quadrants.Classify | Java/src/main/java/org/team1635/vision/Quadrilateral.java:84-96 | right exactly when x > centre x, top exactly when y <= centre y, so a vertex on a centre line goes left and/or top |
| Quadrants.Bucket | Java/src/main/java/org/team1635/vision/Quadrilateral.java:73-97 | a bucket holds only vertices of its own quadrant and is no longer than the input |
| Quadrants.BucketAppend | Java/src/main/java/org/team1635/vision/Quadrilateral.java:84-96 | one more vertex extends only the bucket of its quadrant, at the end |
| Quadrants.BucketMembership | Java/src/main/java/org/team1635/vision/Quadrilateral.java:81-97 | a point is in bucket d exactly when it is an input vertex that classifies into d |
| Quadrants.BucketsPartition | Java/src/main/java/org/team1635/vision/Quadrilateral.java:81-97 | the four bucket sizes add up to the input length, and their multisets add up to the input's multiset |
| Quadrants.AllBucketsAppend | Java/src/main/java/org/team1635/vision/Quadrilateral.java:81-97 | one more input vertex adds exactly one copy of it to the union of the four buckets |
| Quadrants.ClassifyVertices | Java/src/main/java/org/team1635/vision/Quadrilateral.java:81-97 | the one-pass bucketing loop yields exactly the four buckets |
| HiddenPoint.FindHiddenPoint | Java/src/main/java/org/team1635/vision/Quadrilateral.java:163-187 | top quadrants take the smaller y and bottom quadrants the larger y; with distinct y values x and y come from different candidates; on a tie a top quadrant yields the second candidate and a bottom one the first |
| HiddenPoint.HiddenPointInCandidateBox | Java/src/main/java/org/team1635/vision/Quadrilateral.java:164-186 | the hidden point lies in the bounding rectangle of its two candidates |
| HiddenPoint.FindHiddenPointSwap | Java/src/main/java/org/team1635/vision/Quadrilateral.java:168-184 | with distinct y values, swapping the candidates gives the same point |
| HiddenPoint.FindHiddenPointTieDependsOnOrder | Java/src/main/java/org/team1635/vision/Quadrilateral.java:172-175 | on a y tie the top-left result depends on the candidates' order |
| HiddenPoint.FindHiddenPointTopLeftExample | Java/src/main/java/org/team1635/vision/Quadrilateral.java:166-183 | candidates (1,1) and (3,4) give (3,1) in the top-left quadrant and (1,4) in the bottom-left |
| Quadrilateral.SetCorner | Java/src/main/java/org/team1635/vision/Quadrilateral.java:207-237 | a setter writes its corner field and the matching slot of the vertices array, and nothing else |
| Quadrilateral.Resolve | Java/src/main/java/org/team1635/vision/Quadrilateral.java:99-110 | a bucket yields a corner exactly when it holds one or two vertices; a single vertex is the corner itself; two vertices give their hidden point, taken in bucket order; the corner's x and y each come from a vertex of the bucket |
| Quadrilateral.ClassificationCentre | Java/src/main/java/org/team1635/vision/Quadrilateral.java:78-79 | the classification centre is the raw bounding rectangle's origin plus its width and height each halved with truncation (0 <= 2·dx <= width < 2·dx + 2, likewise vertically), so it lies in that rectangle for a non-empty input |
| Quadrilateral.HealedCorner | Java/src/main/java/org/team1635/vision/Quadrilateral.java:99-146 | a quadrant that resolves gets its (present) corner; a quadrant that does not resolve keeps the corner field it had |
| Quadrilateral.HealCorners | Java/src/main/java/org/team1635/vision/Quadrilateral.java:99-146 | every one of the four corner fields is updated by the same per-quadrant rule, independently of the others |
| Quadrilateral.HealedPoly | Java/src/main/java/org/team1635/vision/Quadrilateral.java:99-150 | the returned polygon has one vertex per resolving quadrant, so at most 4, and exactly 4 when every quadrant resolves |
| Quadrilateral.HealedPolyMembers | Java/src/main/java/org/team1635/vision/Quadrilateral.java:99-148 | a point is in the healed polygon exactly when it is the resolved corner of some quadrant |
| Quadrilateral.ResolvedCornerInOwnQuadrant | Java/src/main/java/org/team1635/vision/Quadrilateral.java:99-110 | a corner resolved for quadrant d, including a synthetic hidden point, classifies into d around the same centre |
| Quadrilateral.AssembleInOrder | Java/src/main/java/org/team1635/vision/Quadrilateral.java:99-148 | four optional corners, each in its own quadrant, assemble into a polygon whose quadrant ranks strictly increase |
| Quadrilateral.HealedPolyOrder | Java/src/main/java/org/team1635/vision/Quadrilateral.java:99-150 | the healed polygon lists its corners in strictly increasing quadrant order TL, TR, BR, BL around the classification centre |
| Quadrilateral.HealedPolyPointsInOwnQuadrant | Java/src/main/java/org/team1635/vision/Quadrilateral.java:99-150 | every point of the healed polygon is the corner resolved for the quadrant it lies in |
| Quadrilateral.Heal | Java/src/main/java/org/team1635/vision/Quadrilateral.java:69-151 | the flag ends true exactly when it was already true or some quadrant does not resolve (it is never cleared); the corners follow the per-quadrant rule; the vertices array, stored polygon and rectangle are untouched |
| Quadrilateral.FromMatOfPoint | Java/src/main/java/org/team1635/vision/Quadrilateral.java:40-51 | the healed polygon is stored and its bounding rectangle recomputed even when flagged; when unflagged the vertices array equals the corners and the polygon is [TL, TR, BR, BL]; when flagged the vertices array is untouched |
| Quadrilateral.Width | Java/src/main/java/org/team1635/vision/Quadrilateral.java:61-63 | the width spans every polygon vertex horizontally, some vertex sits on the rightmost column, and it is zero exactly for the empty polygon |
| Quadrilateral.Height | Java/src/main/java/org/team1635/vision/Quadrilateral.java:57-59 | the height spans every polygon vertex vertically, some vertex sits on the bottom row, and it is zero exactly for the empty polygon |
| Quadrilateral.GetCenter | Java/src/main/java/org/team1635/vision/Quadrilateral.java:239-241 | the centre is recomputed from the current rectangle and lies inside it for a non-empty polygon |
| Quadrilateral.LineUp | Java/src/main/java/org/team1635/vision/Quadrilateral.java:243-249 | true exactly when the centres' x values differ by less than 5 |
| Quadrilateral.SetPoly | Java/src/main/java/org/team1635/vision/Quadrilateral.java:268-276 | the new polygon is the corners in the order BL, BR, TL, TR; the rectangle is recomputed from it; corners, vertices and flag are unchanged |
| Quadrilateral.SetPolyAsWritten | Java/src/main/java/org/team1635/vision/Quadrilateral.java:268-276 | fails exactly when the poly field or a corner is null; otherwise it agrees with SetPoly and gives four vertices |
| Quadrilateral.MergedCorners | Java/src/main/java/org/team1635/vision/Quadrilateral.java:252-263 | the fresh object's corners and vertices array agree; poly and rectangle are still unset and the flag is false |
| Quadrilateral.MergeAsWritten | Java/src/main/java/org/team1635/vision/Quadrilateral.java:251-266 | every call fails with a null dereference |
| Quadrilateral.Merge | Java/src/main/java/org/team1635/vision/Quadrilateral.java:251-266 | bottoms come from the quadrilateral with the larger centre y (the second on a tie) and tops from the other; the polygon is BL, BR, TL, TR with its rectangle recomputed; the flag is false |
| QuadrilateralFacts.FreshHealDenaturatedIff | Java/src/main/java/org/team1635/vision/Quadrilateral.java:99-146 | healing a fresh object flags it exactly when some quadrant does not resolve; each corner is set exactly when its quadrant resolves |
| QuadrilateralFacts.DenaturatedIsSticky | Java/src/main/java/org/team1635/vision/Quadrilateral.java:40-48 | healing never clears the flag, and a flagged object's vertices array is not rewritten |
| QuadrilateralFacts.QuadrantsAreIndependent | Java/src/main/java/org/team1635/vision/Quadrilateral.java:99-146 | a corner depends only on its own quadrant's bucket |
| QuadrilateralFacts.HealedVertexCount | Java/src/main/java/org/team1635/vision/Quadrilateral.java:81-146 | an unflagged healed object came from 4 to 8 raw vertices and has a 4-vertex polygon |
| QuadrilateralFacts.ResolvedCornerInsideRawBox | Java/src/main/java/org/team1635/vision/Quadrilateral.java:99-146 | a resolved corner lies in the raw input's bounding rectangle |
| QuadrilateralFacts.HealedPolyInsideRawBox | Java/src/main/java/org/team1635/vision/Quadrilateral.java:69-151 | every vertex of the healed polygon lies in the raw input's bounding rectangle |
| QuadrilateralFacts.HealedPointInsideRawBox | Java/src/main/java/org/team1635/vision/Quadrilateral.java:69-151 | any single vertex of the healed polygon lies in the raw input's bounding rectangle |
| QuadrilateralFacts.SingleVertexIsCorner | Java/src/main/java/org/team1635/vision/Quadrilateral.java:99-101 | a quadrant with one vertex gets that vertex as its corner, and the vertex is a raw vertex of that quadrant |
| QuadrilateralFacts.TwoVerticesGiveHiddenPoint | Java/src/main/java/org/team1635/vision/Quadrilateral.java:103-106 | a quadrant with two vertices gets the hidden point of the pair, in input order, as its corner; both are raw vertices and the corner lies in that quadrant |
| QuadrilateralFacts.OneVertexPerQuadrant | Java/src/main/java/org/team1635/vision/Quadrilateral.java:81-150 | one raw vertex per quadrant means four vertices in all; healing a fresh object leaves it unflagged with those vertices as corners |
| QuadrilateralFacts.SquareBuckets | Java/src/main/java/org/team1635/vision/Quadrilateral.java:78-97 | the square (0,0), (10,0), (10,10), (0,10) has centre (5,5) and one vertex per quadrant |
| QuadrilateralFacts.SquareExample | Java/src/main/java/org/team1635/vision/Quadrilateral.java:40-151 | the square heals unflagged into corners TL (0,0), TR (10,0), BR (10,10), BL (0,10), with rectangle (0,0,11,11) |
| QuadrilateralFacts.SquareCorners | Java/src/main/java/org/team1635/vision/Quadrilateral.java:69-151 | healing the square on a fresh object leaves it unflagged, with each vertex as the corner of its quadrant and the polygon equal to the input |
| QuadrilateralFacts.LineUpReflexive | Java/src/main/java/org/team1635/vision/Quadrilateral.java:243-249 | every quadrilateral lines up with itself |
| QuadrilateralFacts.LineUpSymmetric | Java/src/main/java/org/team1635/vision/Quadrilateral.java:243-249 | alignment does not depend on argument order |
| QuadrilateralFacts.MergeSwap | Java/src/main/java/org/team1635/vision/Quadrilateral.java:253-263 | when the centre y values differ, merge(q1, q2) equals merge(q2, q1) |
| QuadrilateralFacts.MergeTieTakesTopsFromFirst | Java/src/main/java/org/team1635/vision/Quadrilateral.java:258-263 | on equal centre y the tops come from the first argument and the bottoms from the second |
| QuadrilateralFacts.MergeIgnoresDenaturated | Java/src/main/java/org/team1635/vision/Quadrilateral.java:251-265 | merge does not inspect its inputs' flags |
| QuadrilateralFacts.MergeUpperAndLowerHalves | Java/src/main/java/org/team1635/vision/Quadrilateral.java:243-263 | halves centred at (50,20) and (52,80) line up; merging them takes the first one's tops and the second one's bottoms |
| QuadrilateralFacts.MergeOfHealedHasFourVertices | Java/src/main/java/org/team1635/vision/Quadrilateral.java:268-274 | when both inputs have all four corners, the merged polygon has exactly the four vertices BL, BR, TL, TR |
| QuadrilateralFacts.MergeAsWrittenAlwaysFails | Java/src/main/java/org/team1635/vision/Quadrilateral.java:251-274 | merge as written always fails, while the intended merge always yields a polygon with its rectangle |

## Findings

| source | as written | input that shows it | evidently intended | confidence | as-written member | corrected member |
|---|---|---|---|---|---|---|
| Java/src/main/java/org/team1635/vision/Quadrilateral.java:251-274 | `merge` builds `new Quadrilateral()`, whose `poly` field is never initialised. `setPoly` then calls `poly.fromList`, a null dereference | any two healed quadrilaterals | a fresh polygon [BL, BR, TL, TR] with its bounding rectangle recomputed | high; not executed | Quadrilateral.MergeAsWritten | Quadrilateral.Merge |

## Left out

- `fromMatOfPoint2f` (float-to-int conversion inside OpenCV): the model takes integer vertices directly.
- `printPoly` and `printOrientedCorners`: console output only.
- The plain getters `getTopLeft` … `getBottomLeft` and `isDenaturated()`: they are the fields `corners` and `denaturated` of `Quad`.
- OpenCV `Mat`/`MatOfPoint` storage: polygons are sequences. `Imgproc.boundingRect` appears only through `Geometry.BoundingRect`.
- Java `Point` has `double` coordinates. Every coordinate here comes from 32-bit integers and integer centres, so the comparisons are exact over `int`.
- 32-bit overflow of `max − min + 1` and of `x + width / 2`: not modelled. Coordinates are pixel positions.
- Quadrilateral.SetPoly: as written, a null corner makes the OpenCV list conversion throw. The corrected member skips absent corners instead, as healing skips unresolved quadrants; `SetPolyAsWritten` models the throwing behaviour.
- Quadrilateral.Width, Quadrilateral.Height, Quadrilateral.GetCenter, Quadrilateral.LineUp, Quadrilateral.Merge: these require a bounding rectangle. On an object that was never healed the Java field is null and the call throws.
- Main.java (camera, streaming, NetworkTables, frame loop), Sonar.java and VisionDistance.java (GPIO, timing threads, floating-point distance): I/O, hardware and concurrency outside the geometry core.
