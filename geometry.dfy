/** Exact real vector and matrix algebra: the part of Eigen that the mesh kernel
    relies on (Vector3d, Matrix3d, Affine3d and their products), stated over
    unbounded reals instead of IEEE doubles. */
module Geometry {

  /** A point or direction in 3D space (Eigen::Vector3d / RowVector3d). */
  datatype Vec3 = Vec3(x: real, y: real, z: real)

  const Zero: Vec3 := Vec3(0.0, 0.0, 0.0)

  function Add(a: Vec3, b: Vec3): Vec3 { Vec3(a.x + b.x, a.y + b.y, a.z + b.z) }

  function Sub(a: Vec3, b: Vec3): Vec3 { Vec3(a.x - b.x, a.y - b.y, a.z - b.z) }

  function Neg(a: Vec3): Vec3 { Vec3(-a.x, -a.y, -a.z) }

  function Scale(s: real, a: Vec3): Vec3 { Vec3(s * a.x, s * a.y, s * a.z) }

  function Dot(a: Vec3, b: Vec3): real { a.x * b.x + a.y * b.y + a.z * b.z }

  function Cross(a: Vec3, b: Vec3): Vec3 {
    Vec3(a.y * b.z - a.z * b.y, a.z * b.x - a.x * b.z, a.x * b.y - a.y * b.x)
  }

  /** The squared Euclidean norm; comparisons against a norm are made on it,
      which avoids the square root. */
  function NormSq(a: Vec3): real { Dot(a, a) }

  /** A vector plus its negation is zero. */
  lemma AddNeg(a: Vec3)
    ensures Add(a, Neg(a)) == Zero
  {
  }

  /** Adding a negation is subtracting. */
  lemma AddNegSub(a: Vec3, b: Vec3)
    ensures Add(a, Neg(b)) == Sub(a, b)
  {
  }

  /** Adding back what was subtracted. */
  lemma AddSubCancel(a: Vec3, b: Vec3)
    ensures Add(Sub(a, b), b) == a
  {
  }

  /** A 3x3 matrix given by its rows. */
  datatype Mat3 = Mat3(r0: Vec3, r1: Vec3, r2: Vec3)

  const Identity3: Mat3 := Mat3(Vec3(1.0, 0.0, 0.0), Vec3(0.0, 1.0, 0.0), Vec3(0.0, 0.0, 1.0))

  function Diag(s: Vec3): Mat3 {
    Mat3(Vec3(s.x, 0.0, 0.0), Vec3(0.0, s.y, 0.0), Vec3(0.0, 0.0, s.z))
  }

  function Transpose(m: Mat3): Mat3 {
    Mat3(Vec3(m.r0.x, m.r1.x, m.r2.x), Vec3(m.r0.y, m.r1.y, m.r2.y), Vec3(m.r0.z, m.r1.z, m.r2.z))
  }

  /** Matrix times column vector. */
  function MatVec(m: Mat3, v: Vec3): Vec3 { Vec3(Dot(m.r0, v), Dot(m.r1, v), Dot(m.r2, v)) }

  /** Matrix product: row i of the result is row i of `a` times `b`. */
  function MatMul(a: Mat3, b: Mat3): Mat3 {
    var bt := Transpose(b);
    Mat3(MatVec(bt, a.r0), MatVec(bt, a.r1), MatVec(bt, a.r2))
  }

  lemma MatVecIdentity(v: Vec3)
    ensures MatVec(Identity3, v) == v
  {
  }

  lemma MatMulIdentity()
    ensures MatMul(Identity3, Identity3) == Identity3
  {
  }

  lemma MatVecZero(m: Mat3)
    ensures MatVec(m, Zero) == Zero
  {
  }

  /** Multiplying by a product of matrices is multiplying by its factors. */
  lemma MatMulApply(a: Mat3, b: Mat3, v: Vec3)
    ensures MatVec(MatMul(a, b), v) == MatVec(a, MatVec(b, v))
  {
  }

  /** A matrix applied to a multiple of the x axis is that multiple of its
      image of the x axis. */
  lemma MatVecAxis(m: Mat3, a: real)
    ensures MatVec(m, Vec3(a, 0.0, 0.0)) == Scale(a, MatVec(m, Vec3(1.0, 0.0, 0.0)))
  {
  }

  /** Eigen::Affine3d: the map x |-> linear * x + translation. */
  datatype Affine = Affine(linear: Mat3, translation: Vec3)

  const IdentityAffine: Affine := Affine(Identity3, Zero)

  /** The product `a * b` of two Affine3d values: first `b`, then `a`. */
  function Compose(a: Affine, b: Affine): Affine {
    Affine(MatMul(a.linear, b.linear), Add(MatVec(a.linear, b.translation), a.translation))
  }

  /** The math library's cosine and sine. They are transcendental and the model
      does not define them: every generator that samples a circle receives them. */
  datatype Trig = Trig(cos: real -> real, sin: real -> real)

  /** The trigonometric identity, for the arguments at which a proof needs it. */
  predicate UnitCircleAt(trig: Trig, t: real) {
    trig.cos(t) * trig.cos(t) + trig.sin(t) * trig.sin(t) == 1.0
  }
}
