/** The Plane class of Plane.cpp: a point, two spanning vectors and a cached normal that
    `Reup` rebuilds in place. */
module PlaneObject {
  import opened Vectors
  import opened Primitives
  import Planes

  class Plane {
    var p: Vec3     // m_p
    var a: Vec3     // m_a
    var b: Vec3     // m_b
    var norm: Vec3  // m_norm

    /** The plane as the intersection functions read it. */
    function View(): PlaneV
      reads this
    {
      PlaneV(p, a, b, norm)
    }

    /** Plane::reup: store the point, read the two vectors according to `t`, then recompute
        the normal from the new spanning vectors. */
    method Reup(point: Vec3, vec1: Vec3, vec2: Vec3, t: PlaneType)
      modifies this
      ensures p == point
      ensures t == ThreePoints ==> a == Sub(vec1, point) && b == Sub(vec2, point)
      ensures t == PointAndTwoVec ==> a == vec1 && b == vec2
      ensures norm == Cross(a, b)
      ensures Dot(norm, a) == 0.0 && Dot(norm, b) == 0.0
      ensures View() == Planes.MakePlane(point, vec1, vec2, t)
    {
      p := point;
      if t == ThreePoints {
        a := Sub(vec1, point);
        b := Sub(vec2, point);
      } else if t == PointAndTwoVec {
        a := vec1;
        b := vec2;
      }
      norm := Cross(a, b);
    }

    /** Plane::valid: every stored vector is a valid (finite) vector and the normal is not
        "zero"; a plane with a zero normal is never valid. */
    predicate Valid(env: Env)
      reads this
      ensures Valid(env) ==> !env.isZero(norm)
      ensures env.isZero(Zero) && norm == Zero ==> !Valid(env)
    {
      env.finite(p) && env.finite(a) && env.finite(b) && env.finite(norm) && !env.isZero(norm)
    }

    /** Plane::operator==: exactly the free function equal(*this, that). */
    predicate Equals(env: Env, that: Plane)
      reads this, that
      ensures Equals(env, that) == Planes.Equal(env, View(), that.View())
    {
      Planes.Equal(env, View(), that.View())
    }
  }

  /** Rebuilding a plane from P, P + A, P + B as three points leaves the same spanning vectors
      and normal as rebuilding it from P, A, B as a point and two vectors. */
  method ReupVariantsAgree(pl1: Plane, pl2: Plane, point: Vec3, va: Vec3, vb: Vec3)
    modifies pl1, pl2
    ensures pl1.View() == pl2.View()
    ensures pl1.a == va && pl1.b == vb && pl1.norm == Cross(va, vb)
  {
    pl1.Reup(point, Add(point, va), Add(point, vb), ThreePoints);
    pl2.Reup(point, va, vb, PointAndTwoVec);
    Planes.ThreePointsAsPointAndTwoVec(point, va, vb);
  }

  /** Spanning vectors on one line give a zero normal, hence (when "zero" covers the zero
      vector) an invalid plane. */
  lemma CollinearSpanIsInvalid(env: Env, pl: Plane, k: real)
    requires env.isZero(Zero)
    requires pl.b == Scale(pl.a, k) && pl.norm == Cross(pl.a, pl.b)
    ensures !pl.Valid(env)
  {
    var u := pl.a;
    assert u.y * (u.z * k) - u.z * (u.y * k) == 0.0;
    assert u.z * (u.x * k) - u.x * (u.z * k) == 0.0;
    assert u.x * (u.y * k) - u.y * (u.x * k) == 0.0;
    assert pl.norm == Zero;
  }
}
