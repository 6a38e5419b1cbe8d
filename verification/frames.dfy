/** The fixed algebra of `Node::TransformFromMat`: the SLAM engine's camera
    pose (a 4x4 homogeneous matrix) is split into a rotation and a
    translation, re-expressed in ROS axes, inverted and re-expressed again.
    The step after that, the lookup of `head_camera_link` in the tf tree and
    the composition with it, is not part of this model. */
module Frames {
  import opened Linear

  /** A rigid transform as `tf::Transform` holds it: a basis and an origin. */
  datatype Rigid = Rigid(basis: Mat3, origin: Vec3)

  const IdentityTransform := Rigid(Identity, Zero3)

  /** Coordinate change from the ORB-SLAM camera axes (x right, y down,
      z forward) to the ROS axes (x forward, y left, z up). */
  const OrbToRos := Mat3(Vec3(0.0, 0.0, 1.0),
                         Vec3(-1.0, 0.0, 0.0),
                         Vec3(0.0, -1.0, 0.0))

  /** The transform as a map on points: rotate, then translate. */
  function Apply(t: Rigid, v: Vec3): Vec3 {
    Add(MatVec(t.basis, v), t.origin)
  }

  /** `tf::Transform::operator*`: apply `b` first, then `a`. */
  function Compose(a: Rigid, b: Rigid): Rigid {
    Rigid(MatMul(a.basis, b.basis), Add(MatVec(a.basis, b.origin), a.origin))
  }

  /** Composition is application in sequence. */
  lemma ComposeApplies(a: Rigid, b: Rigid, v: Vec3)
    ensures Apply(Compose(a, b), v) == Apply(a, Apply(b, v))
  {
    MatVecOfMatMul(a.basis, b.basis, v);
    MatVecLinear(a.basis, MatVec(b.basis, v), b.origin);
  }

  /** A pure rotation with no translation. */
  function Rotation(m: Mat3): Rigid {
    Rigid(m, Zero3)
  }

  /** The "Inverse matrix" step: basis transposed, origin `-(R^T t)`. */
  function Invert(t: Rigid): Rigid {
    var rt := Transpose(t.basis);
    Rigid(rt, Neg(MatVec(rt, t.origin)))
  }

  /** A camera pose as the SLAM engine hands it over: a matrix given as rows
      of reals, with at least the three rows and four columns the conversion
      reads. */
  predicate IsPoseMatrix(m: seq<seq<real>>) {
    |m| >= 3 && |m[0]| >= 4 && |m[1]| >= 4 && |m[2]| >= 4
  }

  /** Splitting the pose: rows 0..2 and columns 0..2 are the rotation,
      column 3 of rows 0..2 the translation. Applying the result is applying
      the homogeneous matrix. */
  function PoseFromMat(m: seq<seq<real>>): (r: Rigid)
    requires IsPoseMatrix(m)
    ensures forall v :: Apply(r, v) == HomogeneousApply(m, v)
  {
    Rigid(Mat3(Vec3(m[0][0], m[0][1], m[0][2]),
               Vec3(m[1][0], m[1][1], m[1][2]),
               Vec3(m[2][0], m[2][1], m[2][2])),
          Vec3(m[0][3], m[1][3], m[2][3]))
  }

  /** The 4x4 matrix applied to the homogeneous point `(v, 1)`, keeping the
      first three coordinates. */
  function HomogeneousApply(m: seq<seq<real>>, v: Vec3): Vec3
    requires IsPoseMatrix(m)
  {
    Vec3(m[0][0] * v.x + m[0][1] * v.y + m[0][2] * v.z + m[0][3],
         m[1][0] * v.x + m[1][1] * v.y + m[1][2] * v.z + m[1][3],
         m[2][0] * v.x + m[2][1] * v.y + m[2][2] * v.z + m[2][3])
  }

  /** The conversion step by step: left-multiply by `OrbToRos`, invert,
      left-multiply by `OrbToRos` again. The chain is the inverse of the
      pose, conjugated by the axis change: undo the axis change, invert,
      redo the axis change. */
  function ToRosCoordinates(pose: Rigid): (r: Rigid)
    ensures r == Compose(Compose(Rotation(OrbToRos), Invert(pose)), Rotation(Transpose(OrbToRos)))
  {
    var basis1 := MatMul(OrbToRos, pose.basis);
    var origin1 := MatVec(OrbToRos, pose.origin);
    var basis2 := Transpose(basis1);
    var origin2 := Neg(MatVec(basis2, origin1));
    Rigid(MatMul(OrbToRos, basis2), MatVec(OrbToRos, origin2))
  }

  /** The axis change is a signed permutation: it sends `(a, b, c)` to
      `(c, -a, -b)`. */
  lemma OrbToRosRemapsAxes(v: Vec3)
    ensures MatVec(OrbToRos, v) == Vec3(v.z, -v.x, -v.y)
  {
  }

  /** The transpose of the axis change undoes it, on either side. */
  lemma OrbToRosTransposeUndoes(v: Vec3)
    ensures MatVec(Transpose(OrbToRos), MatVec(OrbToRos, v)) == v
    ensures MatVec(OrbToRos, MatVec(Transpose(OrbToRos), v)) == v
  {
    assert Transpose(OrbToRos) == Mat3(Vec3(0.0, -1.0, 0.0), Vec3(0.0, 0.0, -1.0), Vec3(1.0, 0.0, 0.0));
  }

  /** For a rotation basis, the inverse composed after the transform is the
      identity. */
  lemma InvertCancels(t: Rigid)
    requires Orthonormal(t.basis)
    ensures Compose(Invert(t), t) == IdentityTransform
  {
    var rt := Transpose(t.basis);
    assert MatMul(rt, t.basis) == Identity;
    MatVecLinear(rt, t.origin, Zero3);
  }

  /** When the transpose is also a right inverse, the inverse composed
      before the transform is the identity too. */
  lemma InvertCancelsRight(t: Rigid)
    requires MatMul(t.basis, Transpose(t.basis)) == Identity
    ensures Compose(t, Invert(t)) == IdentityTransform
  {
    var rt := Transpose(t.basis);
    MatVecOfMatMul(t.basis, rt, t.origin);
    MatVecLinear(t.basis, MatVec(rt, t.origin), Zero3);
    IdentityNeutral(t.basis, t.origin);
  }

  /** Applying a transform and then its inverse gives the point back. */
  lemma InvertUndoes(t: Rigid, v: Vec3)
    requires Orthonormal(t.basis)
    ensures Apply(Invert(t), Apply(t, v)) == v
  {
    ComposeApplies(Invert(t), t, v);
    InvertCancels(t);
    IdentityNeutral(t.basis, v);
  }

  /** Applying the published transform: undo the axis change, apply the
      inverse pose, redo the axis change. */
  lemma ToRosCoordinatesApplies(pose: Rigid, w: Vec3)
    ensures Apply(ToRosCoordinates(pose), w)
         == MatVec(OrbToRos, Apply(Invert(pose), MatVec(Transpose(OrbToRos), w)))
  {
    var p, pt, inv := Rotation(OrbToRos), Rotation(Transpose(OrbToRos)), Invert(pose);
    var u := MatVec(Transpose(OrbToRos), w);
    var x := Apply(inv, u);
    assert ToRosCoordinates(pose) == Compose(Compose(p, inv), pt);
    assert Apply(pt, w) == u;
    ComposeApplies(Compose(p, inv), pt, w);
    ComposeApplies(p, inv, u);
    assert Apply(p, x) == MatVec(OrbToRos, x);
  }

  /** What the published transform means: a point expressed in the ROS axes
      of the camera is carried back to the same point in the ROS axes of the
      map. `pose` maps map points to camera points, as the SLAM engine's
      pose does. */
  lemma ToRosCoordinatesUndoesPose(pose: Rigid, v: Vec3)
    requires Orthonormal(pose.basis)
    ensures Apply(ToRosCoordinates(pose), MatVec(OrbToRos, Apply(pose, v))) == MatVec(OrbToRos, v)
  {
    var u := Apply(pose, v);
    ToRosCoordinatesApplies(pose, MatVec(OrbToRos, u));
    OrbToRosTransposeUndoes(u);
    InvertUndoes(pose, v);
  }
}
