/** The value types of the LAL library (lines, segments, planes, triangles), the four-way
    intersection tag, the tolerance, and the header-defined helpers the intersection code calls. */
module Primitives {
  import opened Vectors

  /** The global tolerance of every near-zero and near-equal test. Only its positivity is used. */
  const EPSILON: real := 0.000001

  function Abs(x: real): real {
    if x < 0.0 then -x else x
  }

  /** std::min and std::max on doubles. */
  function Min(a: real, b: real): (m: real)
    ensures m <= a && m <= b && (m == a || m == b)
  {
    if b < a then b else a
  }

  function Max(a: real, b: real): (m: real)
    ensures m >= a && m >= b && (m == a || m == b)
  {
    if a < b then b else a
  }

  /** Intersec::quantity: how two primitives meet. */
  datatype Quantity = Nop | Same | One | Interval

  /** The std::pair<witness, quantity> every intersection function returns. */
  datatype Found<T> = Found(item: T, tag: Quantity)

  /** A computation that either finishes or stops at one of the source's `assert`s
      (debug-build semantics: a failed assertion ends the process). */
  datatype Checked<T> = Ok(value: T) | Aborted

  /** LineSegment1: the parameter range [a, b] on a line. */
  datatype Seg1 = Seg1(a: real, b: real)

  /** Line2 / Line3: point + direction. */
  datatype Line2 = Line2(p: Vec2, v: Vec2)
  datatype Line3 = Line3(p: Vec3, v: Vec3)

  /** LineSegment3: the points p + v * s for s in [0, 1]. */
  datatype Seg3 = Seg3(p: Vec3, v: Vec3) {
    /** toLine(): the line carrying the segment */
    function ToLine(): Line3 {
      Line3(p, v)
    }
  }

  /** The LineSegment3 constructor of Type::TwoPoints. */
  function SegThrough(from: Vec3, to: Vec3): (s: Seg3)
    ensures Add(s.p, s.v) == to && s.p == from
  {
    Seg3(from, Sub(to, from))
  }

  /** The default-constructed LineSegment3 and Line3. */
  const NoSeg: Seg3 := Seg3(Zero, Zero)
  const NoLine: Line3 := Line3(Zero, Zero)

  /** Plane::Type: how the two vectors given to the constructor or to `reup` are read. */
  datatype PlaneType = ThreePoints | PointAndTwoVec

  /** The state of a Plane as the intersection functions read it: point, spanning vectors, cached normal. */
  datatype PlaneV = PlaneV(p: Vec3, a: Vec3, b: Vec3, norm: Vec3)

  datatype Triangle = Triangle(a: Vec3, b: Vec3, c: Vec3)

  /** Helpers that the intersection code calls but whose definitions live in headers that are
      not part of this model (and `modul`, a square root). Every property below holds for any
      choice of them that satisfies Wf. */
  datatype Env = Env(
    collinear: (Vec3, Vec3) -> bool,       // Vector3f::collinear
    same: (Vec3, Vec3) -> bool,            // Vector3f::operator==
    isZero: Vec3 -> bool,                  // Vector3f::isZero
    finite: Vec3 -> bool,                  // Vector3f::valid
    modul: Vec3 -> real,                   // modul (a square root)
    collinear2: (Vec2, Vec2) -> bool,      // Vector2f::collinear
    linesMeet2: (Line2, Line2) -> bool,    // Line2::intersection
    overlaps1: (Seg1, Seg1) -> bool,       // LineSegment1::intersection
    segContains: (Seg3, Vec3) -> bool,     // LineSegment3::contein
    triContains: (Triangle, Vec3) -> bool  // Triangle::contein
  )

  /** What the divisions in the source rely on: a non-zero vector, in particular one that is
      not "zero", has a positive length (a square root), the zero vector has length 0, and two
      2-D vectors that are not collinear have a non-zero cross product. */
  ghost predicate Wf(env: Env) {
    && env.modul(Zero) == 0.0
    && (forall v :: !env.isZero(v) ==> env.modul(v) > 0.0)
    && (forall v :: v != Zero ==> env.modul(v) > 0.0)
    && (forall u, v :: !env.collinear2(u, v) ==> Cross2(u, v).z != 0.0)
  }
}
