/** Line and segment intersection (LALmath.cpp, "Line & Line" and "LineSegment & LineSegment"):
    the 1-D range overlap, 3-D line/line by Cramer's rule, 2-D line/line, and 3-D segment/segment. */
module Lines {
  import opened Vectors
  import opened Primitives

  /** normalization(Vector3f): the zero vector for a "zero" input, otherwise `v` shrunk by its
      length, a positive factor, so that the direction is kept. */
  function Normalization(env: Env, v: Vec3): (r: Vec3)
    requires Wf(env)
    ensures env.isZero(v) ==> r == Zero
    ensures !env.isZero(v) ==> env.modul(v) > 0.0 && r == Scale(v, 1.0 / env.modul(v))
    ensures exists k: real :: k >= 0.0 && r == Scale(v, k)
  {
    if !env.isZero(v) then
      var m := env.modul(v);
      assert Vec3(v.x / m, v.y / m, v.z / m) == Scale(v, 1.0 / m);
      Vec3(v.x / m, v.y / m, v.z / m)
    else
      assert Zero == Scale(v, 0.0);
      Zero
  }

  /** When `modul` is the Euclidean length of `v`, the normalised vector has length 1. */
  lemma NormalizationIsUnit(env: Env, v: Vec3)
    requires Wf(env) && !env.isZero(v)
    requires env.modul(v) * env.modul(v) == Dot(v, v)
    ensures Dot(Normalization(env, v), Normalization(env, v)) == 1.0
  {
    var m := env.modul(v);
    var k := 1.0 / m;
    var n := Normalization(env, v);
    assert n == Scale(v, k);
    DotOfScaled(v, k, n);
    DotSymmetric(v, n);
    DotOfScaled(v, k, v);
    assert Dot(n, n) == k * (k * Dot(v, v));
    assert k * m == 1.0;
    calc {
      k * (k * Dot(v, v));
      k * (k * (m * m));
      (k * m) * (k * m);
      1.0;
    }
  }

  /** The point of line `l` at parameter `s`. */
  function PointAt(l: Line3, s: real): Vec3 {
    Add(l.p, Scale(l.v, s))
  }

  // ---------------------------------------------------------------- 1-D

  predicate InSeg1(x: real, s: Seg1) {
    s.a <= x <= s.b
  }

  /** findIntersection(LineSegment1, LineSegment1). A single point is tagged One, a proper
      range Interval; nothing else but Nop is ever returned. */
  function Intersect1(env: Env, l: Seg1, r: Seg1): (res: Found<Seg1>)
    ensures !env.overlaps1(l, r) ==> res == Found(Seg1(0.0, 0.0), Nop)
    ensures res.tag != Same
    ensures res.tag == One ==> res.item.a == res.item.b
    ensures res.tag == Interval ==> res.item.a != res.item.b
  {
    if !env.overlaps1(l, r) then
      Found(Seg1(0.0, 0.0), Nop)
    else if l.b > r.a then
      if l.a < r.b then
        var lo := if l.a < r.a then r.a else l.a;
        var hi := if l.b > r.b then r.b else l.b;
        Found(Seg1(lo, hi), if lo != hi then Interval else One)
      else
        Found(Seg1(l.a, l.a), One)
    else if l.b == r.a then
      Found(Seg1(l.b, l.b), One)
    else
      Found(Seg1(0.0, 0.0), Nop)
  }

  /** Overlapping ranges give [max of the starts, min of the ends], which holds exactly the
      points common to both ranges. */
  lemma {:induction false} Intersect1Overlap(env: Env, l: Seg1, r: Seg1)
    requires env.overlaps1(l, r) && l.b > r.a && l.a < r.b
    ensures Intersect1(env, l, r).item == Seg1(Max(l.a, r.a), Min(l.b, r.b))
    ensures Intersect1(env, l, r).tag == (if Max(l.a, r.a) != Min(l.b, r.b) then Interval else One)
    ensures forall x :: InSeg1(x, Intersect1(env, l, r).item) <==> InSeg1(x, l) && InSeg1(x, r)
  {
    var w := Intersect1(env, l, r).item;
    forall x ensures InSeg1(x, w) <==> InSeg1(x, l) && InSeg1(x, r) {
      assert w.a == Max(l.a, r.a) && w.b == Min(l.b, r.b);
    }
  }

  /** Ranges that touch end to start meet in exactly that point. */
  lemma Intersect1Touch(env: Env, l: Seg1, r: Seg1)
    requires env.overlaps1(l, r) && l.b == r.a
    ensures Intersect1(env, l, r) == Found(Seg1(l.b, l.b), One)
  {
  }

  /** Whatever is found lies inside the first range (when that range is ordered). */
  lemma Intersect1WithinFirst(env: Env, l: Seg1, r: Seg1)
    requires l.a <= l.b
    ensures Intersect1(env, l, r).tag != Nop ==>
              InSeg1(Intersect1(env, l, r).item.a, l) && InSeg1(Intersect1(env, l, r).item.b, l)
  {
  }

  // ---------------------------------------------------------------- 3-D line / line

  /** The Gram system of two lines: with pp = P2 - P1 the closest points Q1 = P1 + S1*V1 and
      Q2 = P2 + S2*V2 satisfy  S1*a - S2*b = c  and  S1*b - S2*d = f. */
  datatype Gram = Gram(a: real, b: real, c: real, d: real, f: real) {
    function Det(): real { -a * d + b * b }
  }

  function GramOf(l1: Line3, l2: Line3): Gram {
    var pp := Sub(l2.p, l1.p);
    Gram(Dot(l1.v, l1.v), Dot(l1.v, l2.v), Dot(pp, l1.v), Dot(l2.v, l2.v), Dot(pp, l2.v))
  }

  /** Cramer's rule: S1 = det1 / det, S2 = det2 / det solve the Gram system. */
  function Params(g: Gram): (s: (real, real))
    requires g.Det() != 0.0
    ensures s.0 * g.a - s.1 * g.b == g.c
    ensures s.0 * g.b - s.1 * g.d == g.f
  {
    var det := g.Det();
    var det1 := -g.d * g.c + g.b * g.f;
    var det2 := g.a * g.f - g.b * g.c;
    var s1 := det1 / det;
    var s2 := det2 / det;
    assert s1 * det == det1 && s2 * det == det2;
    assert (s1 * g.a - s2 * g.b) * det == g.c * det by {
      assert (s1 * g.a - s2 * g.b) * det == (s1 * det) * g.a - (s2 * det) * g.b;
    }
    assert (s1 * g.b - s2 * g.d) * det == g.f * det by {
      assert (s1 * g.b - s2 * g.d) * det == (s1 * det) * g.b - (s2 * det) * g.d;
    }
    (s1, s2)
  }

  /** A solution of a Gram system with non-zero determinant is the Cramer one. */
  lemma ParamsUnique(g: Gram, x: real, y: real)
    requires g.Det() != 0.0
    requires x * g.a - y * g.b == g.c && x * g.b - y * g.d == g.f
    ensures Params(g) == (x, y)
  {
    var det := g.Det();
    assert -g.d * g.c + g.b * g.f == x * det by {
      calc {
        -g.d * g.c + g.b * g.f;
        -g.d * (x * g.a - y * g.b) + g.b * (x * g.b - y * g.d);
        x * (-g.a * g.d + g.b * g.b);
      }
    }
    assert g.a * g.f - g.b * g.c == y * det by {
      calc {
        g.a * g.f - g.b * g.c;
        g.a * (x * g.b - y * g.d) - g.b * (x * g.a - y * g.b);
        y * (-g.a * g.d + g.b * g.b);
      }
    }
    assert (x * det) / det == x && (y * det) / det == y;
  }

  /** findIntersection(Line3, Line3). */
  function LineLine3(env: Env, l1: Line3, l2: Line3): (r: Found<Vec3>)
    ensures r.tag != Interval
    ensures Abs(GramOf(l1, l2).Det()) < EPSILON ==>
              r.tag != One && (r.tag == Same <==> env.collinear(Sub(l1.p, l2.p), l1.v))
    ensures Abs(GramOf(l1, l2).Det()) >= EPSILON ==>
              r.tag != Same &&
              var s := Params(GramOf(l1, l2));
              (r.tag == One <==> env.same(PointAt(l1, s.0), PointAt(l2, s.1))) &&
              (r.tag == One ==> r.item == PointAt(l1, s.0))
  {
    var g := GramOf(l1, l2);
    var det := g.Det();
    if Abs(det) < EPSILON then
      if env.collinear(Sub(l1.p, l2.p), l1.v) then Found(Zero, Same) else Found(Zero, Nop)
    else
      var s := Params(g);
      var q1 := PointAt(l1, s.0);
      var q2 := PointAt(l2, s.1);
      if env.same(q1, q2) then Found(q1, One) else Found(Zero, Nop)
  }

  /** The two witnesses are the feet of the common perpendicular: Q2 - Q1 is orthogonal to
      both directions. */
  lemma ClosestPointsPerpendicular(l1: Line3, l2: Line3)
    requires GramOf(l1, l2).Det() != 0.0
    ensures var s := Params(GramOf(l1, l2));
            Dot(Sub(PointAt(l2, s.1), PointAt(l1, s.0)), l1.v) == 0.0 &&
            Dot(Sub(PointAt(l2, s.1), PointAt(l1, s.0)), l2.v) == 0.0
  {
    var g := GramOf(l1, l2);
    var s := Params(g);
    var q1, q2 := PointAt(l1, s.0), PointAt(l2, s.1);
    DotOfDifference(q2, q1, l1.v);
    DotOfDifference(q2, q1, l2.v);
    DotOfMovedPoint(l1.p, l1.v, s.0, l1.v);
    DotOfMovedPoint(l1.p, l1.v, s.0, l2.v);
    DotOfMovedPoint(l2.p, l2.v, s.1, l1.v);
    DotOfMovedPoint(l2.p, l2.v, s.1, l2.v);
    DotOfDifference(l2.p, l1.p, l1.v);
    DotOfDifference(l2.p, l1.p, l2.v);
    DotSymmetric(l1.v, l2.v);
  }

  /** A line with a zero direction has a zero determinant against any line. */
  lemma ZeroDirectionDet(l1: Line3, l2: Line3)
    ensures l1.v == Zero ==> GramOf(l1, l2).Det() == 0.0
  {
  }

  /** Two lines that really cross at X, with a determinant clear of the tolerance, are found
      to meet in exactly X (given that Vector3f::operator== accepts X == X). */
  lemma LinesCrossingAt(env: Env, l1: Line3, l2: Line3, t1: real, t2: real)
    requires Abs(GramOf(l1, l2).Det()) >= EPSILON
    requires PointAt(l1, t1) == PointAt(l2, t2)
    requires env.same(PointAt(l1, t1), PointAt(l1, t1))
    ensures LineLine3(env, l1, l2) == Found(PointAt(l1, t1), One)
  {
    var g := GramOf(l1, l2);
    var x := PointAt(l1, t1);
    DotOfMovedPoint(l1.p, l1.v, t1, l1.v);
    DotOfMovedPoint(l1.p, l1.v, t1, l2.v);
    DotOfMovedPoint(l2.p, l2.v, t2, l1.v);
    DotOfMovedPoint(l2.p, l2.v, t2, l2.v);
    DotOfDifference(l2.p, l1.p, l1.v);
    DotOfDifference(l2.p, l1.p, l2.v);
    DotSymmetric(l1.v, l2.v);
    ParamsUnique(g, t1, t2);
  }

  // ---------------------------------------------------------------- 2-D line / line

  /** `q` lies on line `l`: q - P is parallel to V. */
  predicate OnLine2(q: Vec2, l: Line2) {
    Cross2(Sub2(q, l.p), l.v).z == 0.0
  }

  /** findIntersection(Line2, Line2): lines that meet with non-collinear directions cross in a
      point of both lines; lines that meet with collinear directions coincide, and P1 stands
      for the common line. */
  function LineLine2(env: Env, l1: Line2, l2: Line2): (r: Found<Vec2>)
    requires Wf(env)
    ensures !env.linesMeet2(l1, l2) ==> r.tag == Nop
    ensures env.linesMeet2(l1, l2) && !env.collinear2(l1.v, l2.v) ==> r.tag == One
    ensures env.linesMeet2(l1, l2) && env.collinear2(l1.v, l2.v) ==> r == Found(l1.p, Same)
    ensures r.tag == One ==> OnLine2(r.item, l1) && OnLine2(r.item, l2)
    ensures r.tag == Same ==> r.item == l1.p && env.collinear2(l1.v, l2.v)
    ensures r.tag != Interval
  {
    if !env.linesMeet2(l1, l2) then
      Found(Vec2(0.0, 0.0), Nop)
    else if !env.collinear2(l1.v, l2.v) then
      var t := Cross2(Sub2(l2.p, l1.p), l2.v).z / Cross2(l1.v, l2.v).z;
      var q := Add2(l1.p, Scale2(l1.v, t));
      CrossingOnBothLines(l1, l2, t);
      Found(q, One)
    else
      Found(l1.p, Same)
  }

  lemma CrossingOnBothLines(l1: Line2, l2: Line2, t: real)
    requires Cross2(l1.v, l2.v).z != 0.0
    requires t == Cross2(Sub2(l2.p, l1.p), l2.v).z / Cross2(l1.v, l2.v).z
    ensures OnLine2(Add2(l1.p, Scale2(l1.v, t)), l1)
    ensures OnLine2(Add2(l1.p, Scale2(l1.v, t)), l2)
  {
    var q := Add2(l1.p, Scale2(l1.v, t));
    var u, v := l1.v, l2.v;
    var w := Sub2(l2.p, l1.p);
    var den := u.x * v.y - u.y * v.x;
    assert t * den == w.x * v.y - w.y * v.x;
    assert Sub2(q, l1.p) == Scale2(u, t);
    assert (u.x * t) * u.y - (u.y * t) * u.x == 0.0;
    assert Sub2(q, l2.p) == Vec2(u.x * t - w.x, u.y * t - w.y);
    calc {
      (u.x * t - w.x) * v.y - (u.y * t - w.y) * v.x;
      t * (u.x * v.y - u.y * v.x) - (w.x * v.y - w.y * v.x);
      0.0;
    }
  }

  // ---------------------------------------------------------------- 3-D segment / segment

  /** findIntersection(LineSegment3, LineSegment3): a crossing of the carrying lines counts when
      both segments contain it; collinear segments are compared as 1-D ranges along the first. */
  function SegSeg3(env: Env, l: Seg3, r: Seg3): (res: Found<Seg3>)
    requires Wf(env)
    ensures res.tag != Same
    ensures LineLine3(env, l.ToLine(), r.ToLine()).tag == Nop ==> res.tag == Nop
    ensures LineLine3(env, l.ToLine(), r.ToLine()).tag == One ==>
              res.tag != Interval &&
              (res.tag == One ==>
                 (res.item.v == Zero && env.segContains(l, res.item.p) && env.segContains(r, res.item.p)))
    ensures var il := LineLine3(env, l.ToLine(), r.ToLine());
            il.tag == One && env.segContains(l, il.item) && env.segContains(r, il.item) ==>
              res == Found(SegThrough(il.item, il.item), One)
    ensures LineLine3(env, l.ToLine(), r.ToLine()).tag == Same ==>
              res.tag == Intersect1(env, Seg1(0.0, 1.0), SameLineRange(env, l, r)).tag
    ensures var ir := Intersect1(env, Seg1(0.0, 1.0), SameLineRange(env, l, r));
            LineLine3(env, l.ToLine(), r.ToLine()).tag == Same && ir.tag != Nop ==>
              res.item == SegThrough(PointAt(l.ToLine(), ir.item.a), PointAt(l.ToLine(), ir.item.b))
  {
    var il := LineLine3(env, l.ToLine(), r.ToLine());
    if il.tag == Nop then
      Found(NoSeg, Nop)
    else if il.tag == One then
      if env.segContains(l, il.item) && env.segContains(r, il.item) then
        Found(SegThrough(il.item, il.item), One)
      else
        Found(NoSeg, Nop)
    else if il.tag == Same then
      var ir := Intersect1(env, Seg1(0.0, 1.0), SameLineRange(env, l, r));
      if ir.tag != Nop then
        Found(SegThrough(PointAt(l.ToLine(), ir.item.a), PointAt(l.ToLine(), ir.item.b)), ir.tag)
      else
        Found(NoSeg, Nop)
    else
      Found(NoSeg, Nop)
  }

  /** The parameters of r's end points along l (s0, s1 of the source): (r.P - l.P) and
      (r.P + r.V - l.P) projected on l's unit direction, divided by l's length; both 0 when
      l is no longer than the tolerance. */
  function SameLineRange(env: Env, l: Seg3, r: Seg3): Seg1
    requires Wf(env)
  {
    var m := env.modul(l.v);
    if m > EPSILON then
      Seg1(Dot(Normalization(env, l.v), Sub(r.p, l.p)) / m,
           Dot(Normalization(env, l.v), Sub(Add(r.p, r.v), l.p)) / m)
    else
      Seg1(0.0, 0.0)
  }

  /** When `modul` is the Euclidean length and r's end points lie on l at parameters t0 and t1,
      the range compared with [0, 1] is exactly [t0, t1]. */
  lemma SameLineRangeParams(env: Env, l: Seg3, r: Seg3, t0: real, t1: real)
    requires Wf(env) && !env.isZero(l.v)
    requires env.modul(l.v) * env.modul(l.v) == Dot(l.v, l.v) && env.modul(l.v) > EPSILON
    requires r.p == PointAt(l.ToLine(), t0) && Add(r.p, r.v) == PointAt(l.ToLine(), t1)
    ensures SameLineRange(env, l, r) == Seg1(t0, t1)
  {
    ParameterAlong(env, l, r.p, t0);
    ParameterAlong(env, l, Add(r.p, r.v), t1);
  }

  /** The projection step of SameLineRange recovers the parameter of a point of l. */
  lemma ParameterAlong(env: Env, l: Seg3, q: Vec3, t: real)
    requires Wf(env) && !env.isZero(l.v)
    requires env.modul(l.v) * env.modul(l.v) == Dot(l.v, l.v)
    requires q == PointAt(l.ToLine(), t)
    ensures Dot(Normalization(env, l.v), Sub(q, l.p)) / env.modul(l.v) == t
  {
    var m := env.modul(l.v);
    var k := 1.0 / m;
    var n := Normalization(env, l.v);
    assert Sub(q, l.p) == Scale(l.v, t);
    DotOfScaled(l.v, k, Scale(l.v, t));
    DotSymmetric(l.v, Scale(l.v, t));
    DotOfScaled(l.v, t, l.v);
    assert Dot(n, Sub(q, l.p)) == k * (t * (m * m));
    assert k * m == 1.0;
    assert k * (t * (m * m)) == t * m by {
      assert k * (t * (m * m)) == t * m * (k * m);
    }
  }

  /** For collinear segments the found piece runs between two points of the first segment. */
  lemma SameLinePieceOnFirst(env: Env, l: Seg3, r: Seg3)
    requires Wf(env)
    requires LineLine3(env, l.ToLine(), r.ToLine()).tag == Same
    requires SegSeg3(env, l, r).tag != Nop
    ensures exists ta, tb :: 0.0 <= ta <= 1.0 && 0.0 <= tb <= 1.0 &&
              SegSeg3(env, l, r).item == SegThrough(PointAt(l.ToLine(), ta), PointAt(l.ToLine(), tb))
  {
    var ir := Intersect1(env, Seg1(0.0, 1.0), SameLineRange(env, l, r));
    Intersect1WithinFirst(env, Seg1(0.0, 1.0), SameLineRange(env, l, r));
    assert InSeg1(ir.item.a, Seg1(0.0, 1.0)) && InSeg1(ir.item.b, Seg1(0.0, 1.0));
  }

  // ---------------------------------------------------------------- 3-D segment / line

  /** findIntersection(LineSegment3, Line3) as written: the crossing point X of the carrying line
      with the line is kept when |X - P| / |V| lies in [0, 1]; collinear lines give Same. The
      ratio of two lengths is never negative, so a crossing before P is kept too. */
  function SegLine3AsWritten(env: Env, ls: Seg3, line: Line3): (r: Found<Vec3>)
    requires Wf(env)
    ensures r.tag != Interval
    ensures r.tag == Same <==> LineLine3(env, ls.ToLine(), line).tag == Same
    ensures r.tag == One ==>
              LineLine3(env, ls.ToLine(), line) == Found(r.item, One) &&
              ls.v != Zero && 0.0 <= env.modul(Sub(r.item, ls.p)) / env.modul(ls.v) <= 1.0
    ensures var found := LineLine3(env, ls.ToLine(), line);
            found.tag == One && ls.v != Zero && 0.0 <= env.modul(Sub(found.item, ls.p)) / env.modul(ls.v) <= 1.0 ==>
              r == Found(found.item, One)
    ensures r.tag != One ==> r.item == Zero
  {
    var found := LineLine3(env, ls.ToLine(), line);
    if found.tag == One then
      ZeroDirectionDet(ls.ToLine(), line);
      var s := env.modul(Sub(found.item, ls.p)) / env.modul(ls.v);
      if 0.0 <= s <= 1.0 then Found(found.item, One) else Found(Zero, Nop)
    else if found.tag == Same then
      Found(Zero, Same)
    else
      Found(Zero, Nop)
  }

  /** The segment from the origin to (1, 0, 0), and the line x = -0.5 of the plane z = 0. */
  const BehindSeg: Seg3 := Seg3(Zero, Vec3(1.0, 0.0, 0.0))
  const BehindLine: Line3 := Line3(Vec3(-0.5, -1.0, 0.0), Vec3(0.0, 1.0, 0.0))

  /** Their carrying lines cross at (-0.5, 0, 0). */
  lemma BehindLinesCross(env: Env)
    requires env.same(Vec3(-0.5, 0.0, 0.0), Vec3(-0.5, 0.0, 0.0))
    ensures LineLine3(env, BehindSeg.ToLine(), BehindLine) == Found(Vec3(-0.5, 0.0, 0.0), One)
  {
    BehindFacts(BehindSeg.ToLine(), BehindLine);
    CrossingOf(env, BehindSeg.ToLine(), BehindLine, Vec3(-0.5, 0.0, 0.0));
  }

  lemma BehindFacts(l1: Line3, l2: Line3)
    requires l1 == Line3(Vec3(0.0, 0.0, 0.0), Vec3(1.0, 0.0, 0.0))
    requires l2 == Line3(Vec3(-0.5, -1.0, 0.0), Vec3(0.0, 1.0, 0.0))
    ensures GramOf(l1, l2).Det() == -1.0
    ensures PointAt(l1, -0.5) == Vec3(-0.5, 0.0, 0.0) && PointAt(l2, 1.0) == Vec3(-0.5, 0.0, 0.0)
  {
    BehindGramAt(l1, l2);
    GramDet(GramOf(l1, l2));
    BehindPoints(l1, l2);
  }

  /** Lines through X at parameters -0.5 and 1 with determinant -1 meet in X. */
  lemma CrossingOf(env: Env, l1: Line3, l2: Line3, x: Vec3)
    requires GramOf(l1, l2).Det() == -1.0
    requires PointAt(l1, -0.5) == x && PointAt(l2, 1.0) == x && env.same(x, x)
    ensures LineLine3(env, l1, l2) == Found(x, One)
  {
    LinesCrossingAt(env, l1, l2, -0.5, 1.0);
  }

  lemma BehindPoints(l1: Line3, l2: Line3)
    requires l1 == Line3(Vec3(0.0, 0.0, 0.0), Vec3(1.0, 0.0, 0.0))
    requires l2 == Line3(Vec3(-0.5, -1.0, 0.0), Vec3(0.0, 1.0, 0.0))
    ensures PointAt(l1, -0.5) == Vec3(-0.5, 0.0, 0.0) && PointAt(l2, 1.0) == Vec3(-0.5, 0.0, 0.0)
  {
  }

  lemma GramDet(g: Gram)
    requires g == Gram(1.0, 0.0, -0.5, 1.0, -1.0)
    ensures g.Det() == -1.0
  {
  }

  /** Their Gram system. */
  lemma BehindGram()
    ensures GramOf(BehindSeg.ToLine(), BehindLine) == Gram(1.0, 0.0, -0.5, 1.0, -1.0)
  {
    BehindGramAt(BehindSeg.ToLine(), BehindLine);
  }

  /** It is solved by the parameters -0.5 and 1 of the crossing. */
  lemma BehindParams()
    ensures Params(Gram(1.0, 0.0, -0.5, 1.0, -1.0)) == (-0.5, 1.0)
  {
    ParamsUnique(Gram(1.0, 0.0, -0.5, 1.0, -1.0), -0.5, 1.0);
  }

  lemma BehindGramAt(l1: Line3, l2: Line3)
    requires l1 == Line3(Vec3(0.0, 0.0, 0.0), Vec3(1.0, 0.0, 0.0))
    requires l2 == Line3(Vec3(-0.5, -1.0, 0.0), Vec3(0.0, 1.0, 0.0))
    ensures GramOf(l1, l2) == Gram(1.0, 0.0, -0.5, 1.0, -1.0)
  {
  }

  /** That crossing lies half a length before the segment starts: no point of the segment is there. */
  lemma CrossingNotOnSegment(t: real)
    ensures 0.0 <= t <= 1.0 ==> PointAt(BehindSeg.ToLine(), t) != Vec3(-0.5, 0.0, 0.0)
  {
    assert Scale(Vec3(1.0, 0.0, 0.0), t).x == 1.0 * t;
  }

  /** The code as written reports that crossing as the intersection of the segment and the
      line (for any modul that gives the two vectors involved their lengths), although no point
      of the segment is there (CrossingNotOnSegment); the corrected SegLine3 reports none. */
  lemma SegLine3AcceptsPointBehind(env: Env)
    requires Wf(env)
    requires env.same(Vec3(-0.5, 0.0, 0.0), Vec3(-0.5, 0.0, 0.0))
    requires env.modul(Vec3(-0.5, 0.0, 0.0)) == 0.5 && env.modul(Vec3(1.0, 0.0, 0.0)) == 1.0
    ensures SegLine3AsWritten(env, BehindSeg, BehindLine) == Found(Vec3(-0.5, 0.0, 0.0), One)
    ensures SegLine3(env, BehindSeg, BehindLine).tag == Nop
  {
    var x := Vec3(-0.5, 0.0, 0.0);
    assert Sub(x, BehindSeg.p) == x;
    assert env.modul(Sub(x, BehindSeg.p)) / env.modul(BehindSeg.v) == 0.5;
    BehindLinesCross(env);
    BehindGram();
    BehindParams();
  }

  /** Distinct parameters give distinct points on a line with a direction. */
  lemma PointAtInjective(l: Line3, t: real, u: real)
    requires l.v != Zero && PointAt(l, t) == PointAt(l, u)
    ensures t == u
  {
    var d := t - u;
    if l.v.x != 0.0 {
      assert l.v.x * t == l.v.x * u;
      assert l.v.x * d == 0.0;
    } else if l.v.y != 0.0 {
      assert l.v.y * t == l.v.y * u;
      assert l.v.y * d == 0.0;
    } else {
      assert l.v.z * t == l.v.z * u;
      assert l.v.z * d == 0.0;
    }
  }

  /** findIntersection(LineSegment3, Line3) with the evidently intended test: the crossing point
      is kept when its parameter along the segment (the S1 that findIntersection(Line3, Line3)
      solves for), signed, lies in [0, 1], that is, when it lies on the segment. */
  function SegLine3(env: Env, ls: Seg3, line: Line3): (r: Found<Vec3>)
    requires Wf(env)
    ensures r.tag != Interval
    ensures r.tag == Same <==> LineLine3(env, ls.ToLine(), line).tag == Same
    ensures r.tag == One ==>
              LineLine3(env, ls.ToLine(), line) == Found(r.item, One) &&
              exists t :: 0.0 <= t <= 1.0 && r.item == PointAt(ls.ToLine(), t)
    ensures r.tag != One ==> r.item == Zero
  {
    var found := LineLine3(env, ls.ToLine(), line);
    if found.tag == One then
      var t := Params(GramOf(ls.ToLine(), line)).0;
      if 0.0 <= t <= 1.0 then Found(found.item, One) else Found(Zero, Nop)
    else if found.tag == Same then
      Found(Zero, Same)
    else
      Found(Zero, Nop)
  }

  /** Every crossing that lies on the segment is found. */
  lemma SegLine3Complete(env: Env, ls: Seg3, line: Line3, t: real)
    requires Wf(env)
    requires LineLine3(env, ls.ToLine(), line).tag == One
    requires 0.0 <= t <= 1.0 && LineLine3(env, ls.ToLine(), line).item == PointAt(ls.ToLine(), t)
    ensures SegLine3(env, ls, line) == Found(PointAt(ls.ToLine(), t), One)
  {
    ZeroDirectionDet(ls.ToLine(), line);
    PointAtInjective(ls.ToLine(), t, Params(GramOf(ls.ToLine(), line)).0);
  }
}
