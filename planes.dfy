/** Planes as the intersection code reads them (LALmath.cpp, "Plane & Plane", "Plane & Vector",
    "Plane & Line"): containment within the tolerance, the tolerance-based equality, the
    plane/line and plane/plane intersections. */
module Planes {
  import opened Vectors
  import opened Primitives
  import opened Lines

  /** The plane that Plane::reup (and the Plane constructor) builds: the point is kept, the
      spanning vectors are taken relative to it for ThreePoints and as given for
      PointAndTwoVec, and the normal is their cross product. */
  function MakePlane(point: Vec3, vec1: Vec3, vec2: Vec3, t: PlaneType): PlaneV {
    var a := if t == ThreePoints then Sub(vec1, point) else vec1;
    var b := if t == ThreePoints then Sub(vec2, point) else vec2;
    PlaneV(point, a, b, Cross(a, b))
  }

  /** Building from three points P, P + A, P + B is the same as building from P and A, B. */
  lemma ThreePointsAsPointAndTwoVec(point: Vec3, a: Vec3, b: Vec3)
    ensures MakePlane(point, Add(point, a), Add(point, b), ThreePoints) ==
            MakePlane(point, a, b, PointAndTwoVec)
  {
    assert Sub(Add(point, a), point) == a;
    assert Sub(Add(point, b), point) == b;
  }

  /** contein(Plane, Vector3f): |(P - point) . N| < EPSILON */
  predicate ContainsPoint(pl: PlaneV, point: Vec3) {
    Abs(Dot(Sub(pl.p, point), pl.norm)) < EPSILON
  }

  /** The three points a plane is built from all lie on it. */
  lemma ThreePointsOnPlane(p: Vec3, q: Vec3, r: Vec3)
    ensures ContainsPoint(MakePlane(p, q, r, ThreePoints), p)
    ensures ContainsPoint(MakePlane(p, q, r, ThreePoints), q)
    ensures ContainsPoint(MakePlane(p, q, r, ThreePoints), r)
  {
    var pl := MakePlane(p, q, r, ThreePoints);
    assert Sub(p, p) == Scale(pl.a, 0.0);
    assert Sub(p, q) == Scale(pl.a, -1.0);
    assert Sub(p, r) == Scale(pl.b, -1.0);
    DotOfScaled(pl.a, 0.0, pl.norm);
    DotOfScaled(pl.a, -1.0, pl.norm);
    DotOfScaled(pl.b, -1.0, pl.norm);
    DotSymmetric(pl.a, pl.norm);
    DotSymmetric(pl.b, pl.norm);
  }

  /** contein(Plane, Line3): the line's point and the point one direction further are on it. */
  predicate ContainsLine(pl: PlaneV, ln: Line3) {
    ContainsPoint(pl, ln.p) && ContainsPoint(pl, Add(ln.p, ln.v))
  }

  /** intersec(Plane, Line3): the line lies in the plane or crosses it steeply enough. */
  predicate PlaneMeetsLine(pl: PlaneV, ln: Line3) {
    ContainsLine(pl, ln) || Abs(Dot(pl.norm, ln.v)) > EPSILON
  }

  /** intersec(Plane, Plane): the first plane meets one of the lines spanning the second. */
  predicate PlanesMeet(p1: PlaneV, p2: PlaneV) {
    PlaneMeetsLine(p1, Line3(p2.p, p2.a)) || PlaneMeetsLine(p1, Line3(p2.p, p2.b))
  }

  /** equal(Plane, Plane), also Plane::operator==: parallel normals (their cross product
      compares equal to zero) and the second point on the first plane within the tolerance. */
  predicate Equal(env: Env, p1: PlaneV, p2: PlaneV) {
    env.same(Cross(p1.norm, p2.norm), Zero) && Abs(Dot(Sub(p1.p, p2.p), p1.norm)) < EPSILON
  }

  /** Every plane equals itself, as long as operator== on vectors accepts 0 == 0. */
  lemma EqualReflexive(env: Env, pl: PlaneV)
    requires env.same(Zero, Zero)
    ensures Equal(env, pl, pl)
  {
    CrossSelfIsZero(pl.norm);
    assert Sub(pl.p, pl.p) == Zero;
  }

  // ---------------------------------------------------------------- plane / line

  /** findIntersec(Plane, Line3). A point is returned only when N . V is clear of the
      tolerance, and it lies on the line and exactly on the plane. */
  function PlaneLine(pl: PlaneV, ln: Line3): (r: Found<Vec3>)
    ensures r.tag != Interval
    ensures r.tag == Nop <==> !PlaneMeetsLine(pl, ln)
    ensures r.tag == Same <==> PlaneMeetsLine(pl, ln) && Abs(Dot(pl.norm, ln.v)) < EPSILON
    ensures r.tag == One ==>
              Dot(pl.norm, r.item) == Dot(pl.norm, pl.p) &&
              exists s :: r.item == PointAt(ln, s)
  {
    if PlaneMeetsLine(pl, ln) then
      var c := Dot(pl.norm, ln.v);
      if Abs(c) < EPSILON then
        Found(Zero, Same)
      else
        var a := Dot(pl.norm, pl.p);
        var b := Dot(pl.norm, ln.p);
        var s := (a - b) / c;
        PointOnPlane(pl, ln, s);
        Found(PointAt(ln, s), One)
    else
      Found(Zero, Nop)
  }

  lemma PointOnPlane(pl: PlaneV, ln: Line3, s: real)
    requires Dot(pl.norm, ln.v) != 0.0
    requires s == (Dot(pl.norm, pl.p) - Dot(pl.norm, ln.p)) / Dot(pl.norm, ln.v)
    ensures Dot(pl.norm, PointAt(ln, s)) == Dot(pl.norm, pl.p)
  {
    DotOfMovedPoint(ln.p, ln.v, s, pl.norm);
    DotSymmetric(ln.p, pl.norm);
    DotSymmetric(ln.v, pl.norm);
    DotSymmetric(PointAt(ln, s), pl.norm);
  }

  /** A line crossing the plane steeply is found to meet it in its only common point. */
  lemma PlaneLineUnique(pl: PlaneV, ln: Line3, t: real)
    requires Abs(Dot(pl.norm, ln.v)) > EPSILON
    requires Dot(pl.norm, PointAt(ln, t)) == Dot(pl.norm, pl.p)
    ensures PlaneLine(pl, ln) == Found(PointAt(ln, t), One)
  {
    var c := Dot(pl.norm, ln.v);
    DotOfMovedPoint(ln.p, ln.v, t, pl.norm);
    DotSymmetric(ln.p, pl.norm);
    DotSymmetric(ln.v, pl.norm);
    DotSymmetric(PointAt(ln, t), pl.norm);
    assert t * c == Dot(pl.norm, pl.p) - Dot(pl.norm, ln.p);
    assert (Dot(pl.norm, pl.p) - Dot(pl.norm, ln.p)) / c == t;
  }

  // ---------------------------------------------------------------- plane / plane

  /** q*l - w*w for q = n1.n1, w = n1.n2, l = n2.n2. */
  function PlaneDet(p1: PlaneV, p2: PlaneV): real {
    Dot(p1.norm, p1.norm) * Dot(p2.norm, p2.norm) - Dot(p1.norm, p2.norm) * Dot(p1.norm, p2.norm)
  }

  /** The point E = a*n1 + b*n2 of the intersection line, with a and b by Cramer's rule:
      it lies exactly on both planes. */
  function BasePoint(p1: PlaneV, p2: PlaneV): (e: Vec3)
    requires PlaneDet(p1, p2) != 0.0
    ensures Dot(e, p1.norm) == Dot(p1.p, p1.norm)
    ensures Dot(e, p2.norm) == Dot(p2.p, p2.norm)
  {
    var n1, n2 := p1.norm, p2.norm;
    var q, w, l := Dot(n1, n1), Dot(n1, n2), Dot(n2, n2);
    var s1, s2 := Dot(p1.p, n1), Dot(p2.p, n2);
    var det := q * l - w * w;
    var a := (s1 * l - w * s2) / det;
    var b := (q * s2 - w * s1) / det;
    CramerPlanes(q, w, l, s1, s2, a, b);
    DotOfCombination(n1, a, n2, b, n1);
    DotOfCombination(n1, a, n2, b, n2);
    DotSymmetric(n2, n1);
    Add(Scale(n1, a), Scale(n2, b))
  }

  lemma CramerPlanes(q: real, w: real, l: real, s1: real, s2: real, a: real, b: real)
    requires q * l - w * w != 0.0
    requires a == (s1 * l - w * s2) / (q * l - w * w)
    requires b == (q * s2 - w * s1) / (q * l - w * w)
    ensures a * q + b * w == s1 && a * w + b * l == s2
  {
    var det := q * l - w * w;
    assert a * det == s1 * l - w * s2;
    assert b * det == q * s2 - w * s1;
    assert (a * q + b * w) * det == s1 * det by {
      assert (a * q + b * w) * det == (a * det) * q + (b * det) * w;
    }
    assert (a * w + b * l) * det == s2 * det by {
      assert (a * w + b * l) * det == (a * det) * w + (b * det) * l;
    }
  }

  /** The direction of the intersection line: the cross product of the normalised normals,
      orthogonal to both normals. */
  function Direction(env: Env, p1: PlaneV, p2: PlaneV): (v: Vec3)
    requires Wf(env)
    ensures Dot(v, p1.norm) == 0.0 && Dot(v, p2.norm) == 0.0
  {
    var u1 := Normalization(env, p1.norm);
    var u2 := Normalization(env, p2.norm);
    var k1 :| u1 == Scale(p1.norm, k1);
    var k2 :| u2 == Scale(p2.norm, k2);
    CrossOfScaledOrthogonal(p1.norm, k1, p2.norm, k2);
    Cross(u1, u2)
  }

  /** findIntersec(Plane, Plane). Planes that do not meet give Nop; planes whose normals are
      parallel within the tolerance give Same, and the assertion that they are then equal may
      fail; otherwise the result is the Interval line through BasePoint along Direction. */
  function PlanePlane(env: Env, p1: PlaneV, p2: PlaneV): (r: Checked<Found<Line3>>)
    requires Wf(env)
    ensures r.Ok? ==> r.value.tag != One
    ensures r.Ok? ==> (r.value.tag == Nop <==> !PlanesMeet(p1, p2))
    ensures r == Aborted <==> PlanesMeet(p1, p2) && Abs(PlaneDet(p1, p2)) < EPSILON && !Equal(env, p1, p2)
    ensures r.Ok? && r.value.tag == Same ==> Abs(PlaneDet(p1, p2)) < EPSILON && Equal(env, p1, p2)
    ensures r.Ok? && r.value.tag == Interval ==>
              Abs(PlaneDet(p1, p2)) >= EPSILON &&
              r.value.item == Line3(BasePoint(p1, p2), Direction(env, p1, p2))
  {
    if PlanesMeet(p1, p2) then
      var det := PlaneDet(p1, p2);
      if Abs(det) < EPSILON then
        if Equal(env, p1, p2) then Ok(Found(NoLine, Same)) else Aborted
      else
        Ok(Found(Line3(BasePoint(p1, p2), Direction(env, p1, p2)), Interval))
    else
      Ok(Found(NoLine, Nop))
  }

  /** The line found for two crossing planes lies in both of them: its base point is on each
      plane and its direction is orthogonal to each normal. */
  lemma PlanePlaneLineInBoth(env: Env, p1: PlaneV, p2: PlaneV)
    requires Wf(env)
    requires PlanesMeet(p1, p2) && Abs(PlaneDet(p1, p2)) >= EPSILON
    ensures PlanePlane(env, p1, p2).Ok?
    ensures var ln := PlanePlane(env, p1, p2).value;
            ln.tag == Interval &&
            Dot(ln.item.p, p1.norm) == Dot(p1.p, p1.norm) &&
            Dot(ln.item.p, p2.norm) == Dot(p2.p, p2.norm) &&
            Dot(ln.item.v, p1.norm) == 0.0 && Dot(ln.item.v, p2.norm) == 0.0
  {
  }
}
