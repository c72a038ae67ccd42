/** Triangle predicates of LALmath.cpp ("Triangle & Line", "Triangle & Triangle"): where a line
    meets a triangle, and whether two triangles intersect. */
module Triangles {
  import opened Vectors
  import opened Primitives
  import opened Lines
  import opened Planes

  /** Triangle::getPlane: the plane through the three vertices. */
  function TrianglePlane(tr: Triangle): PlaneV {
    MakePlane(tr.a, tr.b, tr.c, ThreePoints)
  }

  /** projection(Vector3f, Line3): the foot of `point` on the line, along the normalised
      direction; it is a point of the line. */
  function Projection(env: Env, point: Vec3, line: Line3): (f: Vec3)
    requires Wf(env)
    ensures exists t :: f == PointAt(line, t)
  {
    var n := Normalization(env, line.v);
    var s := Dot(n, Sub(point, line.p));
    var k := if env.isZero(line.v) then 0.0 else 1.0 / env.modul(line.v);
    assert Scale(n, s) == Scale(line.v, k * s);
    assert Add(line.p, Scale(n, s)) == PointAt(line, k * s);
    Add(line.p, Scale(n, s))
  }

  /** When `modul` is the Euclidean length of the direction, the foot is the orthogonal
      projection: the point minus its foot is perpendicular to the line. */
  lemma ProjectionPerpendicular(env: Env, point: Vec3, line: Line3)
    requires Wf(env) && !env.isZero(line.v)
    requires env.modul(line.v) * env.modul(line.v) == Dot(line.v, line.v)
    ensures Dot(Sub(point, Projection(env, point, line)), line.v) == 0.0
  {
    var v := line.v;
    var m := env.modul(v);
    var k := 1.0 / m;
    var n := Normalization(env, v);
    var w := Sub(point, line.p);
    var s := Dot(n, w);
    var f := Projection(env, point, line);
    assert n == Scale(v, k);
    assert f == Add(line.p, Scale(n, s));
    assert Sub(point, f) == Sub(w, Scale(n, s));
    DotOfScaled(v, k, w);
    DotOfDifference(w, Scale(n, s), v);
    DotOfScaled(n, s, v);
    DotOfScaled(v, k, v);
    DotSymmetric(v, w);
    assert k * m == 1.0;
    var d := Dot(w, v);
    assert Dot(Sub(point, f), v) == d - (k * d) * (k * (m * m));
    assert (k * d) * (k * (m * m)) == d * ((k * m) * (k * m));
  }

  /** codirected: collinear and not pointing against each other. */
  predicate Codirected(env: Env, u: Vec3, v: Vec3) {
    env.collinear(u, v) && Dot(u, v) >= 0.0
  }

  /** The signed offsets of the three vertices from a line in the triangle's plane (vertex A's
      side counts as positive) and the vertices' feet on the line. */
  datatype Offsets = Offsets(a: real, b: real, c: real, aFoot: Vec3, bFoot: Vec3, cFoot: Vec3)

  function VertexOffsets(env: Env, tr: Triangle, line: Line3): (o: Offsets)
    requires Wf(env)
    ensures (exists t :: o.aFoot == PointAt(line, t)) && (exists t :: o.bFoot == PointAt(line, t)) &&
            (exists t :: o.cFoot == PointAt(line, t))
    ensures o.a == env.modul(Sub(tr.a, o.aFoot))
    ensures o.a >= 0.0
    ensures tr.a == o.aFoot ==> o.a == 0.0
    ensures tr.b == o.bFoot ==> o.b == 0.0
    ensures tr.c == o.cFoot ==> o.c == 0.0
    ensures o.b == Signed(env.modul(Sub(tr.b, o.bFoot)), Codirected(env, Sub(tr.a, o.aFoot), Sub(tr.b, o.bFoot)))
    ensures o.c == Signed(env.modul(Sub(tr.c, o.cFoot)), Codirected(env, Sub(tr.a, o.aFoot), Sub(tr.c, o.cFoot)))
  {
    var aFoot := Projection(env, tr.a, line);
    var bFoot := Projection(env, tr.b, line);
    var cFoot := Projection(env, tr.c, line);
    var toA := Sub(tr.a, aFoot);
    var toB := Sub(tr.b, bFoot);
    var toC := Sub(tr.c, cFoot);
    Offsets(env.modul(toA),
            Signed(env.modul(toB), Codirected(env, toA, toB)),
            Signed(env.modul(toC), Codirected(env, toA, toC)),
            aFoot, bFoot, cFoot)
  }

  /** A length times 1 on A's side and times -1 on the other. */
  function Signed(m: real, onSideOfA: bool): (r: real)
    ensures Abs(r) == Abs(m)
    ensures onSideOfA ==> r == m
    ensures !onSideOfA ==> r == -m
  {
    m * (if onSideOfA then 1.0 else -1.0)
  }

  predicate NearZero(x: real) {
    Abs(x) < EPSILON
  }

  /** The branches of the coplanar case, decided by the three signed offsets alone: Miss (no
      common piece), an edge on the line, a vertex touching it, a vertex on it with the other
      two on opposite sides (From*), no vertex on it with the named vertex alone on its side
      (Across*), and the two assertions (Degenerate at the first, Unclassified at the final
      assert(0)). */
  datatype Case =
    | Miss
    | EdgeAB | EdgeAC | EdgeBC
    | VertexA | VertexB | VertexC
    | FromA | FromB | FromC
    | AcrossC | AcrossA | AcrossB
    | Degenerate | Unclassified

  /** The if-chain of the coplanar branch after its first test, in the source's order: it
      never reports a miss, and its final assert(0) is unreachable. */
  function Touching(a: real, b: real, c: real): (k: Case)
    ensures k != Miss && k != Unclassified
  {
    TwoOnOneSide(a, b, c);
    if NearZero(a) then
      if NearZero(b) then (if Abs(c) > EPSILON then EdgeAB else Degenerate)
      else if NearZero(c) then EdgeAC
      else if c * b > 0.0 then VertexA
      else FromA
    else if NearZero(b) then
      if NearZero(c) then EdgeBC
      else if c * a > 0.0 then VertexB
      else FromB
    else if NearZero(c) then
      if a * b > 0.0 then VertexC else FromC
    else if a * b > 0.0 then AcrossC
    else if b * c > 0.0 then AcrossA
    else if c * a > 0.0 then AcrossB
    else Unclassified
  }

  /** The coplanar branch as written: no piece whenever the product of the three offsets
      exceeds the tolerance. Since A's offset is a length, that also happens when B and C
      both lie on the side opposite A, where the line crosses the triangle. */
  function ClassifyAsWritten(a: real, b: real, c: real): (k: Case)
    ensures k == Miss <==> a * b * c > EPSILON
  {
    if a * b * c > EPSILON then Miss else Touching(a, b, c)
  }

  /** The miss test as intended: all three vertices strictly on A's side, with the product
      clear of the tolerance. */
  predicate ClearOfLine(a: real, b: real, c: real) {
    a * b * c > EPSILON && b > 0.0 && c > 0.0
  }

  /** The coplanar branch with the intended miss test: no piece exactly when the three
      vertices lie strictly on one side of the line (the positive one, A's offset being a
      length), clear of the tolerance. */
  function Classify(a: real, b: real, c: real): (k: Case)
    ensures k != Unclassified
    ensures k == Miss <==> a > 0.0 && b > 0.0 && c > 0.0 && a * b * c > EPSILON
  {
    if ClearOfLine(a, b, c) then
      PositiveFactor(a, b * c);
      Miss
    else
      Touching(a, b, c)
  }

  lemma PositiveProduct(x: real, y: real)
    requires (x > 0.0 && y > 0.0) || (x < 0.0 && y < 0.0)
    ensures x * y > 0.0
  {
  }

  /** A positive product with a positive second factor has a positive first factor. */
  lemma PositiveFactor(x: real, y: real)
    requires y > 0.0 && x * y > 0.0
    ensures x > 0.0
  {
  }

  /** Of three non-zero offsets, two lie on the same side. */
  lemma {:induction false} TwoOnOneSide(a: real, b: real, c: real)
    ensures a != 0.0 && b != 0.0 && c != 0.0 ==> a * b > 0.0 || b * c > 0.0 || c * a > 0.0
  {
    if a == 0.0 || b == 0.0 || c == 0.0 {
    } else if (a > 0.0) == (b > 0.0) {
      PositiveProduct(a, b);
    } else if (b > 0.0) == (c > 0.0) {
      PositiveProduct(b, c);
    } else {
      PositiveProduct(c, a);
    }
  }

  /** The only stop of the case analysis is the assertion that, with A and B on the line, C
      is not on it too. */
  lemma ClassifyStops(a: real, b: real, c: real)
    ensures Classify(a, b, c) == Degenerate <==>
              !ClearOfLine(a, b, c) && NearZero(a) && NearZero(b) && Abs(c) <= EPSILON
  {
  }

  /** The two miss tests disagree exactly where the written one fires without B and C both
      on A's side; there the corrected analysis finds a piece. */
  lemma ClassifyDiffersFromWritten(a: real, b: real, c: real)
    ensures ClassifyAsWritten(a, b, c) != Classify(a, b, c) <==>
              a * b * c > EPSILON && !(b > 0.0 && c > 0.0)
  {
  }

  /** A vertex strictly on each side of the line: never a miss. */
  lemma {:induction false} SeparatedNeverMiss(a: real, b: real, c: real)
    requires a * b < 0.0 || b * c < 0.0 || c * a < 0.0
    ensures Classify(a, b, c) != Miss
  {
    if Classify(a, b, c) == Miss {
      PositiveProduct(a, b);
      PositiveProduct(b, c);
      PositiveProduct(c, a);
    }
  }

  /** Two vertices on the line (and the third off it): the piece is the edge joining them. */
  lemma ClassifyEdge(a: real, b: real, c: real)
    requires !ClearOfLine(a, b, c)
    ensures NearZero(a) && NearZero(b) && Abs(c) > EPSILON ==> Classify(a, b, c) == EdgeAB
    ensures NearZero(a) && !NearZero(b) && NearZero(c) ==> Classify(a, b, c) == EdgeAC
    ensures !NearZero(a) && NearZero(b) && NearZero(c) ==> Classify(a, b, c) == EdgeBC
  {
  }

  /** One vertex on the line with the other two on one side: the piece is that vertex. */
  lemma ClassifyVertex(a: real, b: real, c: real)
    requires !ClearOfLine(a, b, c)
    ensures NearZero(a) && !NearZero(b) && !NearZero(c) && b * c > 0.0 ==> Classify(a, b, c) == VertexA
    ensures !NearZero(a) && NearZero(b) && !NearZero(c) && a * c > 0.0 ==> Classify(a, b, c) == VertexB
    ensures !NearZero(a) && !NearZero(b) && NearZero(c) && a * b > 0.0 ==> Classify(a, b, c) == VertexC
  {
  }

  /** The point of the segment from `p` to `q` where an offset running linearly from `dp`
      at `p` to `dq` at `q` vanishes, when the two are of opposite signs. */
  function Split(p: Vec3, q: Vec3, dp: real, dq: real): (r: Vec3)
    requires Abs(dp) + Abs(dq) > 0.0
    ensures exists t :: 0.0 <= t <= 1.0 && r == PointAt(Line3(p, Sub(q, p)), t) &&
                        (dp * dq <= 0.0 ==> dp + t * (dq - dp) == 0.0)
  {
    var t := Abs(dp) / (Abs(dq) + Abs(dp));
    assert t * (Abs(dq) + Abs(dp)) == Abs(dp);
    FractionInUnit(Abs(dp), Abs(dq) + Abs(dp));
    assert Add(p, Scale(Sub(q, p), t)) == PointAt(Line3(p, Sub(q, p)), t);
    assert dp * dq <= 0.0 ==> dp + t * (dq - dp) == 0.0 by {
      if dp * dq <= 0.0 {
        if dp >= 0.0 && dq <= 0.0 {
          assert dq - dp == -(Abs(dq) + Abs(dp));
        } else if dp <= 0.0 && dq >= 0.0 {
          assert dq - dp == Abs(dq) + Abs(dp);
        } else {
          PositiveProduct(dp, dq);
        }
      }
    }
    Add(p, Scale(Sub(q, p), t))
  }

  /** A part over its whole lies between 0 and 1. */
  lemma FractionInUnit(n: real, d: real)
    requires 0.0 <= n <= d && d > 0.0
    ensures 0.0 <= n / d <= 1.0
  {
    assert n == (n / d) * d;
  }

  /** The piece of the coplanar branch of findIntersec(Triangle, Line3) for each case. The edge
      and vertex cases return the triangle's own vertices, the From cases run from the foot of
      the vertex on the line, the Across cases join the line's points on two edges
      (findIntersection(Line3, LineSegment3)), and the two assertion cases stop. */
  function CoplanarPiece(env: Env, tr: Triangle, line: Line3, o: Offsets): (r: Checked<Found<Seg3>>)
    requires Wf(env)
    ensures r == Aborted <==> Classify(o.a, o.b, o.c) == Degenerate
    ensures r.Ok? ==> r.value.tag != Same
    ensures r.Ok? && r.value.tag == Nop <==> Classify(o.a, o.b, o.c) == Miss
    ensures r.Ok? && r.value.tag == One ==>
              r.value.item.v == Zero && r.value.item.p in {tr.a, tr.b, tr.c}
    ensures Classify(o.a, o.b, o.c) == EdgeAB ==> r == Ok(Found(SegThrough(tr.a, tr.b), Interval))
    ensures Classify(o.a, o.b, o.c) == EdgeAC ==> r == Ok(Found(SegThrough(tr.a, tr.c), Interval))
    ensures Classify(o.a, o.b, o.c) == EdgeBC ==> r == Ok(Found(SegThrough(tr.b, tr.c), Interval))
    ensures Classify(o.a, o.b, o.c) == VertexA ==> r == Ok(Found(SegThrough(tr.a, tr.a), One))
    ensures Classify(o.a, o.b, o.c) == VertexB ==> r == Ok(Found(SegThrough(tr.b, tr.b), One))
    ensures Classify(o.a, o.b, o.c) == VertexC ==> r == Ok(Found(SegThrough(tr.c, tr.c), One))
    ensures Classify(o.a, o.b, o.c) == FromA ==>
              r == Ok(Found(SegThrough(o.aFoot, Split(o.bFoot, o.cFoot, o.b, o.c)), Interval))
    ensures Classify(o.a, o.b, o.c) == FromB ==>
              r == Ok(Found(SegThrough(o.bFoot, Split(o.aFoot, o.cFoot, o.a, o.c)), Interval))
    ensures Classify(o.a, o.b, o.c) == FromC ==>
              r == Ok(Found(SegThrough(o.cFoot, Split(o.bFoot, o.aFoot, o.b, o.a)), Interval))
    ensures Classify(o.a, o.b, o.c) in {AcrossA, AcrossB, AcrossC} ==> r.Ok? && r.value.tag == Interval
  {
    ClassifyStops(o.a, o.b, o.c);
    match Classify(o.a, o.b, o.c)
    case Miss => Ok(Found(NoSeg, Nop))
    case EdgeAB => Ok(Found(SegThrough(tr.a, tr.b), Interval))
    case EdgeAC => Ok(Found(SegThrough(tr.a, tr.c), Interval))
    case EdgeBC => Ok(Found(SegThrough(tr.b, tr.c), Interval))
    case VertexA => Ok(Found(SegThrough(tr.a, tr.a), One))
    case VertexB => Ok(Found(SegThrough(tr.b, tr.b), One))
    case VertexC => Ok(Found(SegThrough(tr.c, tr.c), One))
    case FromA => Ok(Found(SegThrough(o.aFoot, Split(o.bFoot, o.cFoot, o.b, o.c)), Interval))
    case FromB => Ok(Found(SegThrough(o.bFoot, Split(o.aFoot, o.cFoot, o.a, o.c)), Interval))
    case FromC => Ok(Found(SegThrough(o.cFoot, Split(o.bFoot, o.aFoot, o.b, o.a)), Interval))
    case AcrossC => Ok(Found(SegThrough(SegLine3(env, SegThrough(tr.c, tr.a), line).item,
                                        SegLine3(env, SegThrough(tr.c, tr.b), line).item), Interval))
    case AcrossA => Ok(Found(SegThrough(SegLine3(env, SegThrough(tr.a, tr.b), line).item,
                                        SegLine3(env, SegThrough(tr.a, tr.c), line).item), Interval))
    case AcrossB => Ok(Found(SegThrough(SegLine3(env, SegThrough(tr.b, tr.a), line).item,
                                        SegLine3(env, SegThrough(tr.b, tr.c), line).item), Interval))
    case Degenerate => Aborted
  }

  /** findIntersec(Triangle, Line3): a line piercing the triangle's plane gives the piercing
      point when the triangle contains it; a line in the plane goes to the sign-pattern analysis. */
  function TriangleLine(env: Env, tr: Triangle, line: Line3): (r: Checked<Found<Seg3>>)
    requires Wf(env)
    ensures PlaneLine(TrianglePlane(tr), line).tag == Nop ==> r == Ok(Found(NoSeg, Nop))
    ensures PlaneLine(TrianglePlane(tr), line).tag == One ==>
              r.Ok? && r.value.tag != Interval &&
              (r.value.tag == One ==>
                 var q := r.value.item.p;
                 r.value.item.v == Zero && env.triContains(tr, q) &&
                 Dot(TrianglePlane(tr).norm, q) == Dot(TrianglePlane(tr).norm, tr.a))
    ensures r == Aborted <==>
              PlaneLine(TrianglePlane(tr), line).tag == Same &&
              var o := VertexOffsets(env, tr, line);
              Classify(o.a, o.b, o.c) == Degenerate
    ensures var lp := PlaneLine(TrianglePlane(tr), line);
            lp.tag == One && env.triContains(tr, lp.item) ==> r == Ok(Found(SegThrough(lp.item, lp.item), One))
    ensures var lp := PlaneLine(TrianglePlane(tr), line);
            lp.tag == One && !env.triContains(tr, lp.item) ==> r == Ok(Found(NoSeg, Nop))
    ensures PlaneLine(TrianglePlane(tr), line).tag == Same ==>
              r == CoplanarPiece(env, tr, line, VertexOffsets(env, tr, line))
  {
    var lp := PlaneLine(TrianglePlane(tr), line);
    if lp.tag == One then
      if env.triContains(tr, lp.item) then Ok(Found(SegThrough(lp.item, lp.item), One))
      else Ok(Found(NoSeg, Nop))
    else if lp.tag == Same then
      CoplanarPiece(env, tr, line, VertexOffsets(env, tr, line))
    else if lp.tag != Nop then
      Aborted
    else
      Ok(Found(NoSeg, Nop))
  }

  /** A line crossing the triangle's plane steeply, in a point the triangle contains, gives
      that point. */
  lemma TriangleLinePierced(env: Env, tr: Triangle, line: Line3, t: real)
    requires Wf(env)
    requires Abs(Dot(TrianglePlane(tr).norm, line.v)) > EPSILON
    requires Dot(TrianglePlane(tr).norm, PointAt(line, t)) == Dot(TrianglePlane(tr).norm, tr.a)
    requires env.triContains(tr, PointAt(line, t))
    ensures TriangleLine(env, tr, line) == Ok(Found(SegThrough(PointAt(line, t), PointAt(line, t)), One))
  {
    PlaneLineUnique(TrianglePlane(tr), line, t);
  }

  /** The triangle A = (0, 1, 0), B = (-1, -1, 0), C = (1, -1, 0) and the x axis, which
      separates A from B and C and passes through the inner point A/2 + B/4 + C/4. */
  const SplitTriangle: Triangle := Triangle(Vec3(0.0, 1.0, 0.0), Vec3(-1.0, -1.0, 0.0), Vec3(1.0, -1.0, 0.0))
  const SplitLine: Line3 := Line3(Zero, Vec3(1.0, 0.0, 0.0))

  /** The triangle's plane: through A, spanned by B - A and C - A, with normal (0, 0, 4). */
  lemma SplitTrianglePlane()
    ensures TrianglePlane(SplitTriangle) ==
            PlaneV(Vec3(0.0, 1.0, 0.0), Vec3(-1.0, -2.0, 0.0), Vec3(1.0, -2.0, 0.0), Vec3(0.0, 0.0, 4.0))
  {
    var tr := SplitTriangle;
    SpanNormal(Sub(tr.b, tr.a), Sub(tr.c, tr.a));
  }

  lemma SpanNormal(u: Vec3, v: Vec3)
    requires u == Vec3(-1.0, -2.0, 0.0) && v == Vec3(1.0, -2.0, 0.0)
    ensures Cross(u, v) == Vec3(0.0, 0.0, 4.0)
  {
  }

  /** A plane with normal (0, 0, 4) through a point of z = 0 holds the x axis. */
  lemma XAxisInPlane(pl: PlaneV)
    requires pl.p.z == 0.0 && pl.norm == Vec3(0.0, 0.0, 4.0)
    ensures PlaneLine(pl, SplitLine).tag == Same
  {
    assert Sub(pl.p, SplitLine.p).z == 0.0;
    assert Sub(pl.p, Add(SplitLine.p, SplitLine.v)).z == 0.0;
    assert ContainsLine(pl, SplitLine);
  }

  /** The x axis lies in the triangle's plane. */
  lemma SplitLineInPlane()
    ensures PlaneLine(TrianglePlane(SplitTriangle), SplitLine).tag == Same
  {
    SplitTrianglePlane();
    XAxisInPlane(TrianglePlane(SplitTriangle));
  }

  /** The x axis passes through the inner point A/2 + B/4 + C/4 of the triangle. */
  lemma SplitLineThroughTriangle()
    ensures Add(Add(Scale(SplitTriangle.a, 0.5), Scale(SplitTriangle.b, 0.25)), Scale(SplitTriangle.c, 0.25)) ==
            PointAt(SplitLine, 0.0)
  {
    assert Scale(SplitTriangle.a, 0.5) == Vec3(0.0, 0.5, 0.0);
    assert Scale(SplitTriangle.b, 0.25) == Vec3(-0.25, -0.25, 0.0);
    assert Scale(SplitTriangle.c, 0.25) == Vec3(0.25, -0.25, 0.0);
  }

  /** The foot of a point on the x axis (for any modul that gives the axis's unit vector
      length 1). */
  lemma XAxisFoot(env: Env, point: Vec3)
    requires Wf(env) && !env.isZero(Vec3(1.0, 0.0, 0.0)) && env.modul(Vec3(1.0, 0.0, 0.0)) == 1.0
    ensures Projection(env, point, SplitLine) == Vec3(point.x, 0.0, 0.0)
  {
    assert Normalization(env, SplitLine.v) == Vec3(1.0, 0.0, 0.0);
    assert Dot(Vec3(1.0, 0.0, 0.0), Sub(point, SplitLine.p)) == point.x;
  }

  /** The offsets of the vertices from the x axis are 1, -1, -1 (for any modul that gives the
      unit vectors involved length 1). */
  lemma SplitTriangleOffsets(env: Env)
    requires Wf(env) && !env.isZero(Vec3(1.0, 0.0, 0.0))
    requires env.modul(Vec3(1.0, 0.0, 0.0)) == 1.0
    requires env.modul(Vec3(0.0, 1.0, 0.0)) == 1.0 && env.modul(Vec3(0.0, -1.0, 0.0)) == 1.0
    ensures VertexOffsets(env, SplitTriangle, SplitLine).a == 1.0
    ensures VertexOffsets(env, SplitTriangle, SplitLine).b == -1.0
    ensures VertexOffsets(env, SplitTriangle, SplitLine).c == -1.0
  {
    XAxisOffsets(env, SplitTriangle);
  }

  /** Any triangle of the z = 0 plane with A one unit above the x axis and B and C one unit
      below it has offsets 1, -1, -1 from the axis. */
  lemma XAxisOffsets(env: Env, tr: Triangle)
    requires Wf(env) && !env.isZero(Vec3(1.0, 0.0, 0.0))
    requires env.modul(Vec3(1.0, 0.0, 0.0)) == 1.0
    requires env.modul(Vec3(0.0, 1.0, 0.0)) == 1.0 && env.modul(Vec3(0.0, -1.0, 0.0)) == 1.0
    requires tr.a.y == 1.0 && tr.b.y == -1.0 && tr.c.y == -1.0
    requires tr.a.z == 0.0 && tr.b.z == 0.0 && tr.c.z == 0.0
    ensures var o := VertexOffsets(env, tr, SplitLine); o.a == 1.0 && o.b == -1.0 && o.c == -1.0
  {
    XAxisRise(env, tr.a);
    XAxisRise(env, tr.b);
    XAxisRise(env, tr.c);
    OffsetsFromDiffs(env, tr, SplitLine);
  }

  /** What separates a point from its foot on the x axis. */
  lemma XAxisRise(env: Env, point: Vec3)
    requires Wf(env) && !env.isZero(Vec3(1.0, 0.0, 0.0)) && env.modul(Vec3(1.0, 0.0, 0.0)) == 1.0
    ensures Sub(point, Projection(env, point, SplitLine)) == Vec3(0.0, point.y, point.z)
  {
    XAxisFoot(env, point);
  }

  /** A triangle whose A lies one unit up from its foot and whose B and C lie one unit down has
      offsets 1, -1, -1. */
  lemma OffsetsFromDiffs(env: Env, tr: Triangle, line: Line3)
    requires Wf(env)
    requires env.modul(Vec3(0.0, 1.0, 0.0)) == 1.0 && env.modul(Vec3(0.0, -1.0, 0.0)) == 1.0
    requires var o := VertexOffsets(env, tr, line);
             Sub(tr.a, o.aFoot) == Vec3(0.0, 1.0, 0.0) &&
             Sub(tr.b, o.bFoot) == Vec3(0.0, -1.0, 0.0) &&
             Sub(tr.c, o.cFoot) == Vec3(0.0, -1.0, 0.0)
    ensures var o := VertexOffsets(env, tr, line); o.a == 1.0 && o.b == -1.0 && o.c == -1.0
  {
    UpDownNotCodirected(env);
  }

  lemma UpDownNotCodirected(env: Env)
    ensures !Codirected(env, Vec3(0.0, 1.0, 0.0), Vec3(0.0, -1.0, 0.0))
  {
    assert Dot(Vec3(0.0, 1.0, 0.0), Vec3(0.0, -1.0, 0.0)) == -1.0;
  }

  /** The source's miss test fires on offsets 1, -1, -1, so the source reports no intersection
      of the triangle with the x axis, a line of its plane through one of its inner points
      (SplitLineInPlane); the corrected analysis reports the piece across A. */
  lemma SplitTriangleMissed(env: Env)
    requires Wf(env) && !env.isZero(Vec3(1.0, 0.0, 0.0))
    requires env.modul(Vec3(1.0, 0.0, 0.0)) == 1.0
    requires env.modul(Vec3(0.0, 1.0, 0.0)) == 1.0 && env.modul(Vec3(0.0, -1.0, 0.0)) == 1.0
    ensures var o := VertexOffsets(env, SplitTriangle, SplitLine);
            ClassifyAsWritten(o.a, o.b, o.c) == Miss && Classify(o.a, o.b, o.c) == AcrossA
    ensures TriangleLine(env, SplitTriangle, SplitLine).Ok? &&
            TriangleLine(env, SplitTriangle, SplitLine).value.tag == Interval
  {
    SplitLineInPlane();
    SplitTriangleOffsets(env);
    OffsetsAcrossA(env, SplitTriangle, SplitLine);
  }

  /** A line of the triangle's plane with offsets 1, -1, -1: the source's test reports a miss,
      the corrected one the piece across A. */
  lemma OffsetsAcrossA(env: Env, tr: Triangle, line: Line3)
    requires Wf(env) && PlaneLine(TrianglePlane(tr), line).tag == Same
    requires var o := VertexOffsets(env, tr, line); o.a == 1.0 && o.b == -1.0 && o.c == -1.0
    ensures var o := VertexOffsets(env, tr, line);
            ClassifyAsWritten(o.a, o.b, o.c) == Miss && Classify(o.a, o.b, o.c) == AcrossA
    ensures TriangleLine(env, tr, line).Ok? && TriangleLine(env, tr, line).value.tag == Interval
  {
    assert ClassifyAsWritten(1.0, -1.0, -1.0) == Miss;
    assert Classify(1.0, -1.0, -1.0) == AcrossA;
  }

  /** intersec(Triangle, Triangle). Coplanar triangles (equal planes) intersect when the first
      contains a vertex of the second; triangles whose planes cross are cut by the planes'
      common line and intersect when both cuts exist and overlap. */
  function TriTri(env: Env, t1: Triangle, t2: Triangle): (r: Checked<bool>)
    requires Wf(env)
    ensures Equal(env, TrianglePlane(t1), TrianglePlane(t2)) ==>
              r == Ok(env.triContains(t1, t2.a) || env.triContains(t1, t2.b) || env.triContains(t1, t2.c))
    ensures !Equal(env, TrianglePlane(t1), TrianglePlane(t2)) && !PlanesMeet(TrianglePlane(t1), TrianglePlane(t2)) ==>
              r == Ok(false)
    ensures r == Aborted ==>
              var p1, p2 := TrianglePlane(t1), TrianglePlane(t2);
              !Equal(env, p1, p2) && PlanesMeet(p1, p2) &&
              (Abs(PlaneDet(p1, p2)) >= EPSILON ==>
                 var cut := Line3(BasePoint(p1, p2), Direction(env, p1, p2));
                 TriangleLine(env, t1, cut) == Aborted || TriangleLine(env, t2, cut) == Aborted)
  {
    var p1, p2 := TrianglePlane(t1), TrianglePlane(t2);
    if Equal(env, p1, p2) then
      Ok(env.triContains(t1, t2.a) || env.triContains(t1, t2.b) || env.triContains(t1, t2.c))
    else if PlanesMeet(p1, p2) then
      match PlanePlane(env, p1, p2)
      case Aborted => Aborted
      case Ok(li) =>
        if li.tag == Nop || li.tag == Same then
          Aborted
        else
          match TriangleLine(env, t1, li.item)
          case Aborted => Aborted
          case Ok(r1) =>
            if r1.tag == Nop then Ok(false)
            else
              match TriangleLine(env, t2, li.item)
              case Aborted => Aborted
              case Ok(r2) =>
                if r2.tag == Nop then Ok(false)
                else Ok(SegSeg3(env, r1.item, r2.item).tag != Nop)
    else
      Ok(false)
  }

  /** The two assertions after findIntersec(Plane, Plane) never fail: planes that are not equal
      but meet are never reported as Nop or Same. */
  lemma CrossingPlanesGiveInterval(env: Env, t1: Triangle, t2: Triangle)
    requires Wf(env)
    requires !Equal(env, TrianglePlane(t1), TrianglePlane(t2)) && PlanesMeet(TrianglePlane(t1), TrianglePlane(t2))
    ensures PlanePlane(env, TrianglePlane(t1), TrianglePlane(t2)).Ok? ==>
              PlanePlane(env, TrianglePlane(t1), TrianglePlane(t2)).value.tag == Interval
  {
  }

  /** Triangles whose planes cross clearly intersect exactly when both are cut by the common
      line of the planes and the two cuts overlap. */
  lemma TriTriCrossing(env: Env, t1: Triangle, t2: Triangle)
    requires Wf(env)
    requires !Equal(env, TrianglePlane(t1), TrianglePlane(t2)) && PlanesMeet(TrianglePlane(t1), TrianglePlane(t2))
    requires Abs(PlaneDet(TrianglePlane(t1), TrianglePlane(t2))) >= EPSILON
    ensures var p1, p2 := TrianglePlane(t1), TrianglePlane(t2);
            var cut := Line3(BasePoint(p1, p2), Direction(env, p1, p2));
            var c1, c2 := TriangleLine(env, t1, cut), TriangleLine(env, t2, cut);
            c1.Ok? && c2.Ok? ==>
              TriTri(env, t1, t2) ==
                Ok(c1.value.tag != Nop && c2.value.tag != Nop && SegSeg3(env, c1.value.item, c2.value.item).tag != Nop)
  {
  }

  /** Every triangle meets itself through the coplanar branch: the result is whether it
      contains one of its own vertices, hence true whenever Triangle::contein accepts a vertex. */
  lemma TriTriSelf(env: Env, t: Triangle)
    requires Wf(env) && env.same(Zero, Zero)
    ensures TriTri(env, t, t) == Ok(env.triContains(t, t.a) || env.triContains(t, t.b) || env.triContains(t, t.c))
  {
    EqualReflexive(env, TrianglePlane(t));
  }
}
