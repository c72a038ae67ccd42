# Triangle intersection, its drivers, and two small front ends — a Dafny model

This project models the computational core of the `ilab-2` repository:

- **The linear-algebra library LAL** (`triangles/LAL/math/LALmath.cpp`). It covers:
  - vector products and normalisation;
  - the 1-D overlap of parameter ranges;
  - 3-D and 2-D line/line intersection;
  - 3-D segment/segment and segment/line intersection;
  - plane/line and plane/plane intersection;
  - the triangle/line and triangle/triangle tests.

  Every intersection function returns a witness and an `Intersec::quantity` tag: `Nop`, `Same`, `One` or `Interval`. The model keeps that pair as `Found<T>`. A failed `assert` in the source becomes the `Aborted` result of `Checked<T>`.
- **The `Plane` class** (`triangles/path/LAL/Plane.cpp`). It stores a point, two spanning vectors and a cached normal. `reup` rebuilds them in place, so the model is a Dafny `class` whose method `Reup` modifies its fields.
- **The triangle drivers** (`triangles/other.cpp`):
  - the all-pairs scan `intersectionN_N`, which records the intersecting pairs, their ids and the number of comparisons;
  - the bounding box and id collection of `intersectionOctree`.
- **The ParaC parser driver** (`ParaC/parser/driver.h`): keyword recognition, the token rewriting of `yylex`, and `parse`'s success flag.
- **The Vulkan core** (`triangles/application/Vulkan/vkCore.cpp`): the first-match searches `findMemoryType`, `selectPhysicalDevice_` and `checkValidationLayerSupport`.

## How the model is built

- Reals stand for the source's `float`/`double`. `EPSILON` is the global tolerance. Only its positivity matters to the proofs.
- Several helpers are defined in headers that are not part of this model:
  - `Vector3f::collinear`, `operator==`, `isZero` and `valid`;
  - `Vector2f::collinear`;
  - `Line2::intersection` and `LineSegment1::intersection`;
  - `LineSegment3::contein` and `Triangle::contein`;
  - `modul` (a square root).

  They are the fields of an `Env` value that every operation takes. The predicate `Wf(env)` holds the only facts the model needs about them:
  - a vector that is not "zero" has a positive length, and so does any vector other than the zero vector;
  - the zero vector has length 0, as a square root of 0;
  - two 2-D vectors that are not collinear have a non-zero cross product.

  Every property proved holds for every such choice.
- Loops in the source are methods with loop invariants, and each method is proved against a specification function. Examples:
  - `IntersectionNN` against `Rows` and `IdsOf`;
  - `BoundingBox` against `BoxHoldsAll` and `Tight`;
  - `FindMemoryType` and `SelectPhysicalDevice` against "first suitable".
- The triangle/line test splits in two:
  - `Triangles.Classify` is the decision table over the three signed vertex offsets, in the source's branch order, with the miss test corrected (see Findings). `Triangles.ClassifyAsWritten` keeps the source's test.
  - `Triangles.CoplanarPiece` builds each case's piece. It uses the corrected segment/line intersection `Lines.SegLine3` (see Findings).
- Assumptions about header code that is not part of this model:
  - `Triangle::getPlane` is `Plane(A, B, C, ThreePoints)`.
  - The two-argument `LineSegment3` constructor and `reup` read their arguments as two points.
  - `toLine()` is `Line3(P, V)`.
  - `Plane * Plane` (on normals) is the cross product.
  - `findIntersec(Line3, Plane)` forwards to `findIntersec(Plane, Line3)`.
  - `findIntersection(Line3, LineSegment3)` forwards to `findIntersection(LineSegment3, Line3)`.

## Model

| member | source | states |
|---|---|---|
| Vectors.Cross | triangles/LAL/math/LALmath.cpp:33-40 | the cross product is orthogonal to both operands |
| Vectors.Cross2 | triangles/LAL/math/LALmath.cpp:91-94 | the 2-D cross product is the 3-D one with z = 0, so only its z component can be non-zero |
| Vectors.Add | triangles/LAL/math/LALmath.cpp:53-56 | the componentwise sum; Vectors.Sub undoes it |
| Vectors.Sub | triangles/LAL/math/LALmath.cpp:49-52 | adding V back to U - V gives U |
| Vectors.Scale | triangles/LAL/math/LALmath.cpp:61-64 | the componentwise multiple; Vectors.DotOfScaled takes the factor out of a scalar product |
| Vectors.Dot | triangles/LAL/math/LALmath.cpp:43-46 | the scalar product; Vectors.DotSymmetric and Vectors.DotOfCombination show it symmetric and linear |
| Vectors.DotSymmetric | triangles/LAL/math/LALmath.cpp:43-46 | U . V = V . U |
| Vectors.DotOfCombination | triangles/LAL/math/LALmath.cpp:43-46 | (aU + bV) . W = a (U . W) + b (V . W) |
| Vectors.DotOfScaled | triangles/LAL/math/LALmath.cpp:61-64 | (kU) . W = k (U . W) |
| Lines.Normalization | triangles/LAL/math/LALmath.cpp:10-21 | a "zero" vector normalises to the zero vector; any other vector has a positive length and is divided by it; every result is a non-negative multiple of the input |
| Lines.NormalizationIsUnit | triangles/LAL/math/LALmath.cpp:10-21 | when modul is the Euclidean length, a vector that is not "zero" normalises to a unit vector |
| Lines.Intersect1 | triangles/LAL/math/LALmath.cpp:403-455 | ranges that do not overlap give Nop; One is a single point and Interval a proper range; Same is never returned |
| Lines.Intersect1Overlap | triangles/LAL/math/LALmath.cpp:418-436 | overlapping ranges give [max of starts, min of ends], which holds exactly the points common to both ranges, tagged One when it is a single point |
| Lines.Intersect1Touch | triangles/LAL/math/LALmath.cpp:444-449 | ranges that touch end to start meet in exactly that point, tagged One |
| Lines.Intersect1WithinFirst | triangles/LAL/math/LALmath.cpp:403-455 | whatever is found lies inside the first range |
| Lines.Params | triangles/LAL/math/LALmath.cpp:193-218 | the Cramer values S1, S2 solve the Gram system of the two lines |
| Lines.ParamsUnique | triangles/LAL/math/LALmath.cpp:193-218 | any solution of a Gram system with a non-zero determinant is the Cramer one |
| Lines.LineLine3 | triangles/LAL/math/LALmath.cpp:179-231 | for a near-zero determinant: Same exactly when P1 - P2 is collinear with V1, never One. Otherwise: One exactly when the two closest points compare equal, and then the point is P1 + S1 V1; never Same. Never Interval |
| Lines.ClosestPointsPerpendicular | triangles/LAL/math/LALmath.cpp:181-191 | Q2 - Q1 is orthogonal to both directions, so Q1 and Q2 are the feet of the common perpendicular |
| Lines.LinesCrossingAt | triangles/LAL/math/LALmath.cpp:179-231 | two lines that cross at X, with a determinant clear of the tolerance, are found to meet in exactly X |
| Lines.LineLine2 | triangles/LAL/math/LALmath.cpp:291-311 | lines that do not meet give Nop. Lines that meet give One exactly when their directions are not collinear, with a point on both lines, and otherwise Same carrying P1. Never Interval |
| Lines.CrossingOnBothLines | triangles/LAL/math/LALmath.cpp:299-303 | the point P1 + t V1 with t from the two cross products lies on both lines |
| Lines.SegSeg3 | triangles/LAL/math/LALmath.cpp:326-364 | carrying lines that do not meet give Nop. A crossing that both segments contain gives One, the one-point segment at it; any One result is a point of both segments; a crossing never gives Interval. Coincident carrying lines give the tag of the overlap of [0, 1] with the second segment's range along the first, and, when that overlap is not empty, the piece of the first line from the overlap's start to its end. Same is never returned |
| Lines.SameLineRangeParams | triangles/LAL/math/LALmath.cpp:343-353 | when modul is the Euclidean length and V1 is longer than the tolerance, a second segment running from P1 + t0 V1 to P1 + t1 V1 has the range [t0, t1] along the first |
| Lines.SameLinePieceOnFirst | triangles/LAL/math/LALmath.cpp:343-361 | for collinear segments the piece runs between two points of the first segment (parameters in [0, 1]) |
| Lines.SegLine3AsWritten | triangles/LAL/math/LALmath.cpp:469-492 | One exactly for a crossing of the carrying lines whose distance ratio \|X - P\| / \|V\| is in [0, 1] with V not zero, and then X itself; Same exactly when the lines coincide; Nop otherwise; never Interval |
| Lines.SegLine3AcceptsPointBehind | triangles/LAL/math/LALmath.cpp:478-480 | the segment from (0, 0, 0) along (1, 0, 0) and the line x = -0.5 of the plane z = 0: the source reports their crossing (-0.5, 0, 0), which lies before the segment; the corrected version reports none |
| Lines.SegLine3 | triangles/LAL/math/LALmath.cpp:469-492 | corrected version: a One point is the line/line crossing and lies on the segment (P + tV, t in [0, 1]); Same exactly when the lines are collinear; never Interval |
| Lines.SegLine3Complete | triangles/LAL/math/LALmath.cpp:469-492 | every crossing that lies on the segment is reported by the corrected version |
| Planes.MakePlane | triangles/path/LAL/Plane.cpp:10-26 | the point is kept; the spanning vectors are taken relative to it for ThreePoints and as given for PointAndTwoVec; the normal is their cross product |
| Planes.ThreePointsAsPointAndTwoVec | triangles/path/LAL/Plane.cpp:10-26 | building from P, P + A, P + B as three points equals building from P and the vectors A, B |
| Planes.ContainsPoint | triangles/LAL/math/LALmath.cpp:612-615 | a point is on the plane when \|(P - point) . N\| is below the tolerance |
| Planes.ThreePointsOnPlane | triangles/LAL/math/LALmath.cpp:612-615 | the three points a plane is built from are all contained in it |
| Planes.ContainsLine | triangles/LAL/math/LALmath.cpp:730-733 | a line is in the plane when its point and the point one direction further are |
| Planes.PlaneMeetsLine | triangles/LAL/math/LALmath.cpp:647-660 | a plane meets a line that lies in it or whose direction has \|N . V\| above the tolerance |
| Planes.PlanesMeet | triangles/LAL/math/LALmath.cpp:503-507 | a plane meets another when it meets one of the two lines spanning the other |
| Planes.Equal | triangles/LAL/math/LALmath.cpp:564-572 | two planes are equal when the cross product of their normals compares equal to zero and the second point lies on the first plane within the tolerance |
| Planes.EqualReflexive | triangles/LAL/math/LALmath.cpp:564-572 | every plane equals itself when vector == accepts 0 == 0 |
| Planes.PlaneLine | triangles/LAL/math/LALmath.cpp:672-707 | Nop exactly when the plane and the line do not meet; Same exactly when they meet and N.V is within the tolerance; a One point lies on the line and exactly on the plane; never Interval |
| Planes.PlaneLineUnique | triangles/LAL/math/LALmath.cpp:688-702 | a line crossing the plane steeply is found to meet it in its only common point |
| Planes.BasePoint | triangles/LAL/math/LALmath.cpp:534-554 | E = a n1 + b n2 from Cramer's rule lies exactly on both planes |
| Planes.Direction | triangles/LAL/math/LALmath.cpp:555 | the direction of the common line is orthogonal to both normals |
| Planes.PlanePlane | triangles/LAL/math/LALmath.cpp:509-562 | planes that do not meet give Nop. With a near-zero determinant: Same when the planes are equal, else the assertion fails. Otherwise: the Interval line through BasePoint along Direction; never One |
| Planes.PlanePlaneLineInBoth | triangles/LAL/math/LALmath.cpp:509-562 | for crossing planes the line found lies in both planes |
| PlaneObject.Plane.Reup | triangles/path/LAL/Plane.cpp:10-26 | the new point and spanning vectors are taken per type; the new normal is their cross product, orthogonal to both |
| PlaneObject.Plane.Valid | triangles/path/LAL/Plane.cpp:28-31 | a valid plane has a normal that is not "zero"; a zero normal never gives a valid plane |
| PlaneObject.Plane.Equals | triangles/path/LAL/Plane.cpp:33-36 | operator== is the free function equal |
| PlaneObject.ReupVariantsAgree | triangles/path/LAL/Plane.cpp:10-26 | rebuilding from three points or from a point and two vectors leaves the same plane |
| PlaneObject.CollinearSpanIsInvalid | triangles/path/LAL/Plane.cpp:28-31 | spanning vectors on one line make the plane invalid |
| Triangles.Projection | triangles/LAL/math/LALmath.cpp:136-144 | the foot of a point lies on the line |
| Triangles.ProjectionPerpendicular | triangles/LAL/math/LALmath.cpp:136-144 | when modul is the Euclidean length and the direction is not "zero", the point minus its foot is orthogonal to the line |
| Triangles.Codirected | triangles/LAL/math/LALmath.cpp:28-31 | two vectors are codirected when collinear with a non-negative scalar product |
| Triangles.VertexOffsets | triangles/LAL/math/LALmath.cpp:810-820 | the three feet lie on the line; A's offset is the length of A - A', never negative; a vertex lying on the line has offset 0; the offsets of B and C are their distances to the line, positive when codirected with A - A' and negative otherwise |
| Triangles.Signed | triangles/LAL/math/LALmath.cpp:819-820 | the signed offset has the length's magnitude, with sign + on A's side and - off it |
| Triangles.Touching | triangles/LAL/math/LALmath.cpp:830-911 | the branches after the miss test never report a miss, and their final assert(0) is unreachable |
| Triangles.TwoOnOneSide | triangles/LAL/math/LALmath.cpp:886-911 | of three non-zero offsets two lie on the same side |
| Triangles.ClassifyAsWritten | triangles/LAL/math/LALmath.cpp:826-829 | the source's test: no piece exactly when the product of the three offsets exceeds the tolerance |
| Triangles.Classify | triangles/LAL/math/LALmath.cpp:826-911 | corrected test: no piece exactly when all three offsets are positive (on A's side) with a product above the tolerance; the final assert(0) is never reached |
| Triangles.ClassifyDiffersFromWritten | triangles/LAL/math/LALmath.cpp:826-829 | the two tests differ exactly when the product exceeds the tolerance while B and C are not both on A's side |
| Triangles.SeparatedNeverMiss | triangles/LAL/math/LALmath.cpp:826-829 | with a vertex strictly on each side of the line the corrected test never reports a miss |
| Triangles.ClassifyStops | triangles/LAL/math/LALmath.cpp:826-912 | the only stop is the assertion at 834, exactly when the miss test does not fire, A and B are near the line and C is within the tolerance of it |
| Triangles.ClassifyEdge | triangles/LAL/math/LALmath.cpp:830-860 | when the miss test does not fire, two vertices on the line (and the third off it) select the edge joining them |
| Triangles.ClassifyVertex | triangles/LAL/math/LALmath.cpp:844-879 | when the miss test does not fire, one vertex on the line with the other two on one side selects that vertex |
| Triangles.Split | triangles/LAL/math/LALmath.cpp:847-848 | the point lies on the segment between the two feet, at the parameter where the offset running linearly between the two values vanishes |
| Triangles.CoplanarPiece | triangles/LAL/math/LALmath.cpp:810-912 | it stops exactly in the degenerate case and is Nop exactly in the miss case. An edge case gives the edge joining the two vertices (Interval); a vertex case that single vertex (One); a From case the Interval from that vertex's foot to the point where the opposite edge's interpolated offset is zero, between the other two feet (`Split`); an Across case an Interval. Never Same |
| Triangles.TriangleLine | triangles/LAL/math/LALmath.cpp:795-917 | a line missing the plane gives Nop. A line piercing it at a point the triangle contains gives exactly that point (One), which lies on the plane; at a point it does not contain, Nop. A line in the plane gives the coplanar piece of its vertex offsets. It stops exactly when the line lies in the plane and the offsets are degenerate |
| Triangles.TriangleLinePierced | triangles/LAL/math/LALmath.cpp:797-806 | a line crossing the plane steeply at a point the triangle contains gives that point, tagged One |
| Triangles.SplitTriangleOffsets | triangles/LAL/math/LALmath.cpp:810-820 | the triangle (0, 1, 0), (-1, -1, 0), (1, -1, 0) has offsets 1, -1, -1 from the x axis |
| Triangles.SplitTriangleMissed | triangles/LAL/math/LALmath.cpp:826-829 | for that triangle and the x axis, a line of its plane through an inner point, the source's test reports no piece while the corrected one reports the Interval across A |
| Triangles.TriTri | triangles/LAL/math/LALmath.cpp:746-783 | equal planes: true exactly when the first triangle contains a vertex of the second. Unequal planes that do not meet: false. It stops only when a cut of a triangle stops, or when the planes are parallel within the tolerance but not equal |
| Triangles.CrossingPlanesGiveInterval | triangles/LAL/math/LALmath.cpp:760-762 | the assertions after the plane/plane intersection never fail |
| Triangles.TriTriCrossing | triangles/LAL/math/LALmath.cpp:757-772 | triangles whose planes cross clearly intersect exactly when both are cut by the common line and the cuts overlap |
| Triangles.TriTriSelf | triangles/LAL/math/LALmath.cpp:746-754 | a triangle meets itself exactly when it contains one of its own vertices |
| TriangleScan.IntersectionNN | triangles/other.cpp:51-80 | the pairs are every (i, k), i < k, whose triangles intersect, in scan order; the ids are those of the pairs; n(n-1)/2 comparisons |
| TriangleScan.ScanRow | triangles/other.cpp:67-79 | one row appends that row's hits, keeps the ids in step and counts n - i - 1 comparisons |
| TriangleScan.ComparisonsTotal | triangles/other.cpp:63-79 | the nested loops make n(n-1)/2 comparisons |
| TriangleScan.IdsOfMeaning | triangles/other.cpp:75-76 | an id is recorded exactly when it is one side of some recorded pair |
| TriangleScan.RecordedIffIntersect | triangles/other.cpp:63-79 | the pair (i, k) with i < k is recorded exactly when the triangles intersect |
| TriangleScan.RowsSound | triangles/other.cpp:63-79 | every recorded pair has i < k and intersecting triangles |
| TriangleScan.RowsComplete | triangles/other.cpp:63-79 | every intersecting pair of a scanned row is recorded |
| TriangleScan.RowsOrdered | triangles/other.cpp:63-79 | pairs are recorded in lexicographic (i, k) order |
| Primitives.Min | triangles/other.cpp:130-132 | std::min is the smaller of its arguments, and one of them |
| Primitives.Max | triangles/other.cpp:133-135 | std::max is the larger of its arguments, and one of them |
| TriangleScan.Min3 | triangles/other.cpp:108-109 | the MIN macro is the least of its three arguments, and one of them |
| TriangleScan.Max3 | triangles/other.cpp:111-112 | the MAX macro is the greatest of its three arguments, and one of them |
| TriangleScan.BoundingBox | triangles/other.cpp:125-136 | the box holds every vertex, and each face of the box touches some vertex |
| TriangleScan.IntersectionOctree | triangles/other.cpp:114-153 | empty input does nothing. Otherwise: the tight box; the tree's pairs over the triangles tagged by position; the ids of those pairs |
| TriangleScan.Tagged | triangles/other.cpp:140-143 | the i-th item is the i-th triangle with id i |
| ParaCDriver.IsKeyWord | ParaC/parser/driver.h:54-72 | each reserved word gives exactly its token; ERROR exactly for every other string |
| ParaCDriver.SpellingRoundTrip | ParaC/parser/driver.h:54-72 | keyword tokens and reserved words correspond one to one |
| ParaCDriver.Rewrite | ParaC/parser/driver.h:20-44 | no WORD reaches the parser. A word becomes VARIABLE exactly when it is not reserved, and otherwise the token of its spelling. Every other token passes through |
| ParaCDriver.Stored | ParaC/parser/driver.h:20-44 | NUMBER stores the number, a non-reserved word stores the word, anything else leaves the value unchanged |
| ParaCDriver.Yylex | ParaC/parser/driver.h:20-44 | returns the rewritten token, and the value left in yylval is the one Stored gives for the lexed token, text and previous value |
| ParaCDriver.Parse | ParaC/parser/driver.h:48-52 | true exactly when the parser's status is 0 |
| VkCore.FindMemoryType | triangles/application/Vulkan/vkCore.cpp:200-215 | returns the smallest index allowed by the filter with every requested property, or none exactly when there is no such index |
| VkCore.Core.SelectPhysicalDevice | triangles/application/Vulkan/vkCore.cpp:129-170 | picks the first (device, family) in device-major order that draws graphics and can present. Without one the fields keep their values, and it aborts exactly when no device had been chosen |
| VkCore.Core.CheckValidationLayerSupport | triangles/application/Vulkan/vkCore.cpp:102-126 | true exactly when every requested layer is among the available ones |

## Left out

- Floating point is modelled as exact reals. Rounding, overflow to infinity and NaN are not modelled.
- The 2-D segment/segment intersection (LALmath.cpp:368-399) is not modelled. It divides by `modul` of the first direction without the guard the 3-D version has, so it is undefined for a zero-length segment.
- The distance and projection functions other than `projection(Vector3f, Line3)` are not modelled, nor `distanceWithSign`. The triangle core does not call them.
- The header helpers listed above are parameters, not definitions. This includes `modul` (a square root).
- `EPSILON` is defined in a header that is not part of this model. The value used is a stand-in, and only its positivity is relied on.
- Triangles.TriTri: when the planes are equal, only the vertices of the second triangle are checked against the first, as the source does. Coplanar triangles that cross without either containing a vertex of the other are reported as not intersecting.
- Triangles.CoplanarPiece: the Across cases use the corrected `Lines.SegLine3` in place of the source's `findIntersection(Line3, LineSegment3)` (see Findings), and they join the two crossings without checking that those were found, as the source does. Its contract says only that these cases give an Interval, not which points bound it.
- Triangles.Classify: the miss test is the corrected one (see Findings); the source's test is `Triangles.ClassifyAsWritten`. The tolerance order of the remaining branches is the source's.
- TriangleScan.IntersectionOctree: the octree (`la::Octree`: `add`, `msplit`, `getIntersections`) is not part of this model. It is the parameter `treeIntersections`. The `COUNT_TT_INTERSEC` counter, the printing and the `DEBUGG` dumps are left out.
- TriangleScan.IntersectionOctree: ids are stored in a `std::set<int>` in the source. A `size_t` id above the `int` range would be truncated, which the model does not capture.
- TriangleScan.IntersectionNN: the data and the predicate are parameters. Reading the input (`getData`) and printing are left out.
- VkCore.FindMemoryType: the filter test `1 << i` is a signed `int` shift, undefined for i = 31. The model uses a bit test on `bv32`.
- VkCore.Core.SelectPhysicalDevice: the device list and the queue-family tables are inputs, standing for the Vulkan enumeration calls. The initial value of `m_DeviceIndex` comes from a header that is not part of this model, so the contract is stated for any initial value.
- The remaining Vulkan and GLFW plumbing in vkCore.cpp is I/O with the driver and is left out: instance and device creation, buffers, the debug callback.
- ParaCDriver.Yylex: the FlexLexer is abstracted as the token and text it produces. `std::stod` is a parameter.
- ParaCDriver.Parse: the generated bison parser is abstracted as its status code.

## Findings

| source | as written | input that shows it | evidently intended | confidence | as-written member | corrected member |
|---|---|---|---|---|---|---|
| triangles/LAL/math/LALmath.cpp:478-480 | the segment parameter of the crossing X is `(X - P).modul() / V.modul()`, a ratio of lengths that is never negative, so crossings before P are accepted | segment P = (0, 0, 0), V = (1, 0, 0); line through (-0.5, -1, 0) along (0, 1, 0): the crossing (-0.5, 0, 0) has ratio 0.5 and is reported, though it lies before the segment | accept X only when X = P + tV with t in [0, 1] | high (not executed) | Lines.SegLine3AcceptsPointBehind | Lines.SegLine3 |
| triangles/LAL/math/LALmath.cpp:818-829 | A's offset is a length, never negative, and the piece is skipped whenever the product of the three offsets exceeds the tolerance; that product is also positive when B and C both lie on the side opposite A, where the line crosses the triangle | the triangle (0, 1, 0), (-1, -1, 0), (1, -1, 0) and the x axis, which lies in its plane and passes through its inner point (0, 0, 0): offsets 1, -1, -1, product 1, so no intersection is reported | skip only when all three vertices lie on A's side of the line | high (not executed) | Triangles.SplitTriangleMissed | Triangles.Classify |
