/** Real-valued 3-vectors and 3x3 matrices, with the operations the tf
    library offers on `tf::Vector3` and `tf::Matrix3x3`: row-by-vector
    products, matrix products, transposition and negation.

    Values are exact reals; the single-precision rounding of the C++ code
    is not modelled. */
module Linear {

  datatype Vec3 = Vec3(x: real, y: real, z: real)

  /** A matrix stored by rows, as `tf::Matrix3x3` stores `m_el[0..2]`. */
  datatype Mat3 = Mat3(r0: Vec3, r1: Vec3, r2: Vec3)

  const Zero3 := Vec3(0.0, 0.0, 0.0)

  const Identity := Mat3(Vec3(1.0, 0.0, 0.0), Vec3(0.0, 1.0, 0.0), Vec3(0.0, 0.0, 1.0))

  function Dot(a: Vec3, b: Vec3): real {
    a.x * b.x + a.y * b.y + a.z * b.z
  }

  function Add(a: Vec3, b: Vec3): Vec3 {
    Vec3(a.x + b.x, a.y + b.y, a.z + b.z)
  }

  function Neg(a: Vec3): Vec3 {
    Vec3(-a.x, -a.y, -a.z)
  }

  function Col0(m: Mat3): Vec3 { Vec3(m.r0.x, m.r1.x, m.r2.x) }
  function Col1(m: Mat3): Vec3 { Vec3(m.r0.y, m.r1.y, m.r2.y) }
  function Col2(m: Mat3): Vec3 { Vec3(m.r0.z, m.r1.z, m.r2.z) }

  function Transpose(m: Mat3): Mat3 {
    Mat3(Col0(m), Col1(m), Col2(m))
  }

  /** Matrix times column vector: each component is a row dotted with `v`. */
  function MatVec(m: Mat3, v: Vec3): Vec3 {
    Vec3(Dot(m.r0, v), Dot(m.r1, v), Dot(m.r2, v))
  }

  function MatMul(a: Mat3, b: Mat3): Mat3 {
    Mat3(Vec3(Dot(a.r0, Col0(b)), Dot(a.r0, Col1(b)), Dot(a.r0, Col2(b))),
         Vec3(Dot(a.r1, Col0(b)), Dot(a.r1, Col1(b)), Dot(a.r1, Col2(b))),
         Vec3(Dot(a.r2, Col0(b)), Dot(a.r2, Col1(b)), Dot(a.r2, Col2(b))))
  }

  /** Orthonormal columns: the transpose undoes the matrix. This is what a
      rotation basis satisfies. */
  predicate Orthonormal(m: Mat3) {
    MatMul(Transpose(m), m) == Identity
  }

  lemma IdentityNeutral(m: Mat3, v: Vec3)
    ensures MatVec(Identity, v) == v
    ensures MatMul(Identity, m) == m && MatMul(m, Identity) == m
  {
  }

  /** Applying a product is applying its factors one after the other. */
  lemma MatVecOfMatMul(a: Mat3, b: Mat3, v: Vec3)
    ensures MatVec(MatMul(a, b), v) == MatVec(a, MatVec(b, v))
  {
  }

  lemma MatVecLinear(m: Mat3, u: Vec3, w: Vec3)
    ensures MatVec(m, Add(u, w)) == Add(MatVec(m, u), MatVec(m, w))
    ensures MatVec(m, Neg(u)) == Neg(MatVec(m, u))
  {
  }
}
