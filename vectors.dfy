/** Vector algebra of the LAL library (Vector3f, Vector2f and their free operators).
    Coordinates are exact reals: the model states the algebra, not floating-point rounding. */
module Vectors {

  datatype Vec3 = Vec3(x: real, y: real, z: real)
  datatype Vec2 = Vec2(x: real, y: real)

  const Zero: Vec3 := Vec3(0.0, 0.0, 0.0)

  /** operator + */
  function Add(u: Vec3, v: Vec3): Vec3 {
    Vec3(u.x + v.x, u.y + v.y, u.z + v.z)
  }

  /** operator - : the vector that, added back to `v`, gives `u` */
  function Sub(u: Vec3, v: Vec3): (r: Vec3)
    ensures Add(r, v) == u
  {
    Vec3(u.x - v.x, u.y - v.y, u.z - v.z)
  }

  /** operator * (Vector3f, double) */
  function Scale(v: Vec3, n: real): Vec3 {
    Vec3(v.x * n, v.y * n, v.z * n)
  }

  /** scalarProduct, operator ^ */
  function Dot(u: Vec3, v: Vec3): real {
    u.x * v.x + u.y * v.y + u.z * v.z
  }

  /** crossProduct, operator * (Vector3f, Vector3f): orthogonal to both operands */
  function Cross(u: Vec3, v: Vec3): (r: Vec3)
    ensures Dot(r, u) == 0.0 && Dot(r, v) == 0.0
  {
    Vec3(u.y * v.z - u.z * v.y, u.z * v.x - u.x * v.z, u.x * v.y - u.y * v.x)
  }

  function Add2(u: Vec2, v: Vec2): Vec2 {
    Vec2(u.x + v.x, u.y + v.y)
  }

  function Sub2(u: Vec2, v: Vec2): (r: Vec2)
    ensures Add2(r, v) == u
  {
    Vec2(u.x - v.x, u.y - v.y)
  }

  function Scale2(v: Vec2, n: real): Vec2 {
    Vec2(v.x * n, v.y * n)
  }

  function Dot2(u: Vec2, v: Vec2): real {
    u.x * v.x + u.y * v.y
  }

  /** The 2-D cross product lifts both operands to z = 0: only the z component survives,
      and it vanishes exactly when one operand is a multiple of the other. */
  function Cross2(u: Vec2, v: Vec2): (r: Vec3)
    ensures r.x == 0.0 && r.y == 0.0
    ensures r == Cross(Vec3(u.x, u.y, 0.0), Vec3(v.x, v.y, 0.0))
    ensures Dot(r, Vec3(u.x, u.y, 0.0)) == 0.0 && Dot(r, Vec3(v.x, v.y, 0.0)) == 0.0
  {
    Cross(Vec3(u.x, u.y, 0.0), Vec3(v.x, v.y, 0.0))
  }

  /** The dot product is bilinear: the step every Cramer-rule proof below rests on. */
  lemma DotOfCombination(u: Vec3, a: real, v: Vec3, b: real, w: Vec3)
    ensures Dot(Add(Scale(u, a), Scale(v, b)), w) == a * Dot(u, w) + b * Dot(v, w)
  {
    calc {
      Dot(Add(Scale(u, a), Scale(v, b)), w);
      (u.x * a + v.x * b) * w.x + (u.y * a + v.y * b) * w.y + (u.z * a + v.z * b) * w.z;
      a * (u.x * w.x + u.y * w.y + u.z * w.z) + b * (v.x * w.x + v.y * w.y + v.z * w.z);
    }
  }

  /** A point `p + v * s` seen through a dot product with `w`. */
  lemma DotOfMovedPoint(p: Vec3, v: Vec3, s: real, w: Vec3)
    ensures Dot(Add(p, Scale(v, s)), w) == Dot(p, w) + s * Dot(v, w)
  {
    calc {
      Dot(Add(p, Scale(v, s)), w);
      (p.x + v.x * s) * w.x + (p.y + v.y * s) * w.y + (p.z + v.z * s) * w.z;
      (p.x * w.x + p.y * w.y + p.z * w.z) + s * (v.x * w.x + v.y * w.y + v.z * w.z);
    }
  }

  lemma DotSymmetric(u: Vec3, v: Vec3)
    ensures Dot(u, v) == Dot(v, u)
  {
  }

  lemma DotOfDifference(u: Vec3, v: Vec3, w: Vec3)
    ensures Dot(Sub(u, v), w) == Dot(u, w) - Dot(v, w)
  {
  }

  /** A cross product of rescaled operands is still orthogonal to the unscaled ones. */
  lemma CrossOfScaledOrthogonal(u: Vec3, a: real, v: Vec3, b: real)
    ensures Dot(Cross(Scale(u, a), Scale(v, b)), u) == 0.0
    ensures Dot(Cross(Scale(u, a), Scale(v, b)), v) == 0.0
  {
    var c := Cross(u, v);
    ProductRegroup(u.y, v.z, a, b); ProductRegroup(u.z, v.y, a, b);
    ProductRegroup(u.z, v.x, a, b); ProductRegroup(u.x, v.z, a, b);
    ProductRegroup(u.x, v.y, a, b); ProductRegroup(u.y, v.x, a, b);
    var k := a * b;
    assert (u.y * v.z - u.z * v.y) * k == (u.y * v.z) * k - (u.z * v.y) * k;
    assert (u.z * v.x - u.x * v.z) * k == (u.z * v.x) * k - (u.x * v.z) * k;
    assert (u.x * v.y - u.y * v.x) * k == (u.x * v.y) * k - (u.y * v.x) * k;
    assert Cross(Scale(u, a), Scale(v, b)) == Scale(c, k);
    DotOfScaled(c, k, u);
    DotOfScaled(c, k, v);
  }

  lemma ProductRegroup(p: real, q: real, a: real, b: real)
    ensures (p * a) * (q * b) == (p * q) * (a * b)
  {
  }

  lemma DotOfScaled(u: Vec3, k: real, w: Vec3)
    ensures Dot(Scale(u, k), w) == k * Dot(u, w)
  {
  }

  /** Crossing a vector with itself gives the zero vector. */
  lemma CrossSelfIsZero(u: Vec3)
    ensures Cross(u, u) == Zero
  {
  }
}
