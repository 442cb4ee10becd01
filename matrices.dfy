/** 4x4 matrices (`Mat4`) acting on row vectors: `Apply(m, v)` is the product v·m,
    so a translation sits in row 3 and a composite `Mul(a, b)` applies `a` first.
    Entry `mIJ` is the source's `m[I][J]`. Sines, cosines and tangents are left
    uninterpreted: the factories take their values as parameters. */
module Matrices {
  import opened Vectors

  datatype Mat4 = Mat4(
    m00: real, m01: real, m02: real, m03: real,
    m10: real, m11: real, m12: real, m13: real,
    m20: real, m21: real, m22: real, m23: real,
    m30: real, m31: real, m32: real, m33: real)

  /** The source's `m[i][j]`. */
  function At(m: Mat4, i: nat, j: nat): real
    requires i < 4 && j < 4
  {
    if i == 0 then (if j == 0 then m.m00 else if j == 1 then m.m01 else if j == 2 then m.m02 else m.m03)
    else if i == 1 then (if j == 0 then m.m10 else if j == 1 then m.m11 else if j == 2 then m.m12 else m.m13)
    else if i == 2 then (if j == 0 then m.m20 else if j == 1 then m.m21 else if j == 2 then m.m22 else m.m23)
    else (if j == 0 then m.m30 else if j == 1 then m.m31 else if j == 2 then m.m32 else m.m33)
  }

  /** `Mat4::default()`: all entries 0. */
  function Zero(): Mat4
  {
    Mat4(0.0, 0.0, 0.0, 0.0, 0.0, 0.0, 0.0, 0.0, 0.0, 0.0, 0.0, 0.0, 0.0, 0.0, 0.0, 0.0)
  }

  /** `Mul<Vec4F> for Mat4`: the row vector `v` times `m`. Unlike the vector operators,
      the result's w is computed, not reset. */
  function Apply(m: Mat4, v: Vec4): Vec4
  {
    Vec4(
      v.x * m.m00 + v.y * m.m10 + v.z * m.m20 + m.m30 * v.w,
      v.x * m.m01 + v.y * m.m11 + v.z * m.m21 + m.m31 * v.w,
      v.x * m.m02 + v.y * m.m12 + v.z * m.m22 + m.m32 * v.w,
      v.x * m.m03 + v.y * m.m13 + v.z * m.m23 + m.m33 * v.w)
  }

  /** Entry `[j][i]` of the product `a * b`: row j of `a` against column i of `b`. */
  function Entry(a: Mat4, b: Mat4, j: nat, i: nat): real
    requires j < 4 && i < 4
  {
    At(a, j, 0) * At(b, 0, i) + At(a, j, 1) * At(b, 1, i) + At(a, j, 2) * At(b, 2, i) + At(a, j, 3) * At(b, 3, i)
  }

  /** `Mul for Mat4`, as a value: every entry is the row-by-column sum. */
  function Mul(a: Mat4, b: Mat4): Mat4
  {
    Mat4(
      Entry(a, b, 0, 0), Entry(a, b, 0, 1), Entry(a, b, 0, 2), Entry(a, b, 0, 3),
      Entry(a, b, 1, 0), Entry(a, b, 1, 1), Entry(a, b, 1, 2), Entry(a, b, 1, 3),
      Entry(a, b, 2, 0), Entry(a, b, 2, 1), Entry(a, b, 2, 2), Entry(a, b, 2, 3),
      Entry(a, b, 3, 0), Entry(a, b, 3, 1), Entry(a, b, 3, 2), Entry(a, b, 3, 3))
  }

  /** The matrix held in a 4x4 array. */
  function FromArray(m: array2<real>): Mat4
    requires m.Length0 == 4 && m.Length1 == 4
    reads m
  {
    Mat4(
      m[0, 0], m[0, 1], m[0, 2], m[0, 3],
      m[1, 0], m[1, 1], m[1, 2], m[1, 3],
      m[2, 0], m[2, 1], m[2, 2], m[2, 3],
      m[3, 0], m[3, 1], m[3, 2], m[3, 3])
  }

  /** `Mul for Mat4` as the source computes it: a zeroed matrix whose entries
      `[j][i]` are filled by two nested loops, i outer and j inner. */
  method MulLoop(a: Mat4, b: Mat4) returns (r: Mat4)
    ensures r == Mul(a, b)
  {
    var mat := new real[4, 4]((_, _) => 0.0);
    for i := 0 to 4
      invariant forall jj, ii :: 0 <= jj < 4 && 0 <= ii < i ==> mat[jj, ii] == Entry(a, b, jj, ii)
    {
      for j := 0 to 4
        invariant forall jj, ii :: 0 <= jj < 4 && 0 <= ii < i ==> mat[jj, ii] == Entry(a, b, jj, ii)
        invariant forall jj :: 0 <= jj < j ==> mat[jj, i] == Entry(a, b, jj, i)
      {
        mat[j, i] := At(a, j, 0) * At(b, 0, i) + At(a, j, 1) * At(b, 1, i)
                   + At(a, j, 2) * At(b, 2, i) + At(a, j, 3) * At(b, 3, i);
      }
    }
    r := FromArray(mat);
  }

  /** `make_identity`. */
  function Identity(): Mat4
  {
    Mat4(1.0, 0.0, 0.0, 0.0, 0.0, 1.0, 0.0, 0.0, 0.0, 0.0, 1.0, 0.0, 0.0, 0.0, 0.0, 1.0)
  }

  /** `rotate_x(angle)`, with `c` = cos(angle) and `s` = sin(angle). The receiver is
      not read, so the model has none: the result starts from `Mat4::default()`. */
  function RotateX(c: real, s: real): Mat4
  {
    Zero().(m00 := 1.0, m11 := c, m12 := s, m21 := -s, m22 := c, m33 := 1.0)
  }

  /** `rotate_y(angle)`, with `c` = cos(angle) and `s` = sin(angle). */
  function RotateY(c: real, s: real): Mat4
  {
    Zero().(m00 := c, m02 := s, m20 := -s, m11 := 1.0, m22 := c, m33 := 1.0)
  }

  /** `rotate_z(angle)`, with `c` = cos(angle) and `s` = sin(angle). */
  function RotateZ(c: real, s: real): Mat4
  {
    Zero().(m00 := c, m01 := s, m10 := -s, m11 := c, m22 := 1.0, m33 := 1.0)
  }

  /** `translate(x, y, z)`: moves every point (w = 1) by (x, y, z). The receiver is
      not read. */
  function Translate(x: real, y: real, z: real): Mat4
  {
    Zero().(m00 := 1.0, m11 := 1.0, m22 := 1.0, m33 := 1.0, m30 := x, m31 := y, m32 := z)
  }

  /** `project(fov_deg, aspect_ratio, near, far)`, with `tanHalfFov` the value of
      tan(fov_deg * 0.5 / 180 * PI). The applied vector's w becomes its input z, the
      depth the perspective divide then divides by. A zero tangent or `far == near`
      (IEEE infinities in the source) are outside the model. */
  function Project(tanHalfFov: real, aspect: real, near: real, far: real): Mat4
    requires tanHalfFov != 0.0 && far != near
  {
    var fovRad := 1.0 / tanHalfFov;
    Zero().(m00 := aspect * fovRad, m11 := fovRad, m22 := far / (far - near),
            m32 := -(far * near) / (far - near), m23 := 1.0, m33 := 0.0)
  }

  /** `point_at(pos, target, up)`, with `fwdLen` and `upLen` the lengths that the two
      `normalize` calls divide by. Row 0 is right = up' x forward, row 1 the
      re-orthogonalised up', row 2 forward, row 3 the position; column 3 is all 1. */
  function PointAt(pos: Vec4, target: Vec4, up: Vec4, fwdLen: real, upLen: real): (r: Mat4)
    requires fwdLen != 0.0 && upLen != 0.0
    ensures Row(r, 0) == Cross(Row(r, 1), Row(r, 2))
    ensures SameXYZ(Row(r, 3), pos)
    ensures r.m03 == 1.0 && r.m13 == 1.0 && r.m23 == 1.0 && r.m33 == 1.0
  {
    var newForward := Normalize(Sub(target, pos), fwdLen);
    var a := Scale(newForward, Dot(up, newForward));
    var newUp := Normalize(Sub(up, a), upLen);
    var newRight := Cross(newUp, newForward);
    Mat4(
      newRight.x, newRight.y, newRight.z, 1.0,
      newUp.x, newUp.y, newUp.z, 1.0,
      newForward.x, newForward.y, newForward.z, 1.0,
      pos.x, pos.y, pos.z, 1.0)
  }

  /** Row `i` of `m` as a point (w = 1). */
  function Row(m: Mat4, i: nat): Vec4
    requires i < 4
  {
    Vec4(At(m, i, 0), At(m, i, 1), At(m, i, 2), 1.0)
  }

  /** `quick_inverse`: transposes the upper-left 3x3 block, sets column 3 to
      (0, 0, 0, 1) and the translation row to minus the old translation against
      the transposed block's columns. */
  function QuickInverse(m: Mat4): (r: Mat4)
    ensures forall i: nat, j: nat :: i < 3 && j < 3 ==> At(r, i, j) == At(m, j, i)
    ensures r.m03 == 0.0 && r.m13 == 0.0 && r.m23 == 0.0 && r.m33 == 1.0
  {
    var t := Mat4(
      m.m00, m.m10, m.m20, 0.0,
      m.m01, m.m11, m.m21, 0.0,
      m.m02, m.m12, m.m22, 0.0,
      0.0, 0.0, 0.0, 1.0);
    t.(m30 := -(m.m30 * t.m00 + m.m31 * t.m10 + m.m32 * t.m20),
       m31 := -(m.m30 * t.m01 + m.m31 * t.m11 + m.m32 * t.m21),
       m32 := -(m.m30 * t.m02 + m.m31 * t.m12 + m.m32 * t.m22))
  }

  // ---- Lemmas ----------------------------------------------------------------------

  /** The identity matrix leaves every vector as it is. */
  lemma IdentityApply(v: Vec4)
    ensures Apply(Identity(), v) == v
  {
  }

  /** Each rotation fixes its own axis and w. */
  lemma RotationsFixAxis(c: real, s: real, v: Vec4)
    ensures Apply(RotateX(c, s), v).x == v.x && Apply(RotateX(c, s), v).w == v.w
    ensures Apply(RotateY(c, s), v).y == v.y && Apply(RotateY(c, s), v).w == v.w
    ensures Apply(RotateZ(c, s), v).z == v.z && Apply(RotateZ(c, s), v).w == v.w
  {
  }

  /** The translation moves every point (w = 1) by (x, y, z). */
  lemma TranslateMovesPoint(x: real, y: real, z: real, p: Vec4)
    requires p.w == 1.0
    ensures Apply(Translate(x, y, z), p) == Vec4(p.x + x, p.y + y, p.z + z, 1.0)
  {
  }

  /** The projection puts the input depth into w, the divisor of the perspective
      divide. */
  lemma ProjectWIsDepth(tanHalfFov: real, aspect: real, near: real, far: real, v: Vec4)
    requires tanHalfFov != 0.0 && far != near
    ensures Apply(Project(tanHalfFov, aspect, near, far), v).w == v.z
  {
  }

  /** Row vector times (matrix times column) equals (row vector times matrix) times
      column, with the inner sums named `e` and `u`, in the shapes `Apply` and `Mul`
      produce: the rearrangement behind `MulApply`. */
  lemma Regroup(v0: real, v1: real, v2: real, v3: real,
                a00: real, a01: real, a02: real, a03: real,
                a10: real, a11: real, a12: real, a13: real,
                a20: real, a21: real, a22: real, a23: real,
                a30: real, a31: real, a32: real, a33: real,
                b0: real, b1: real, b2: real, b3: real,
                e0: real, e1: real, e2: real, e3: real,
                u0: real, u1: real, u2: real, u3: real)
    requires e0 == a00 * b0 + a01 * b1 + a02 * b2 + a03 * b3
    requires e1 == a10 * b0 + a11 * b1 + a12 * b2 + a13 * b3
    requires e2 == a20 * b0 + a21 * b1 + a22 * b2 + a23 * b3
    requires e3 == a30 * b0 + a31 * b1 + a32 * b2 + a33 * b3
    requires u0 == v0 * a00 + v1 * a10 + v2 * a20 + a30 * v3
    requires u1 == v0 * a01 + v1 * a11 + v2 * a21 + a31 * v3
    requires u2 == v0 * a02 + v1 * a12 + v2 * a22 + a32 * v3
    requires u3 == v0 * a03 + v1 * a13 + v2 * a23 + a33 * v3
    ensures v0 * e0 + v1 * e1 + v2 * e2 + e3 * v3 == u0 * b0 + u1 * b1 + u2 * b2 + b3 * u3
  {
  }

  /** Column x of `v·(a·b)` is column x of `(v·a)·b`; likewise y, z and w below. */
  lemma MulApplyX(a: Mat4, b: Mat4, v: Vec4)
    ensures Apply(Mul(a, b), v).x == Apply(b, Apply(a, v)).x
  {
    var m := Mul(a, b);
    var u := Apply(a, v);
    Regroup(v.x, v.y, v.z, v.w,
            a.m00, a.m01, a.m02, a.m03, a.m10, a.m11, a.m12, a.m13,
            a.m20, a.m21, a.m22, a.m23, a.m30, a.m31, a.m32, a.m33,
            b.m00, b.m10, b.m20, b.m30, m.m00, m.m10, m.m20, m.m30, u.x, u.y, u.z, u.w);
  }

  lemma MulApplyY(a: Mat4, b: Mat4, v: Vec4)
    ensures Apply(Mul(a, b), v).y == Apply(b, Apply(a, v)).y
  {
    var m := Mul(a, b);
    var u := Apply(a, v);
    Regroup(v.x, v.y, v.z, v.w,
            a.m00, a.m01, a.m02, a.m03, a.m10, a.m11, a.m12, a.m13,
            a.m20, a.m21, a.m22, a.m23, a.m30, a.m31, a.m32, a.m33,
            b.m01, b.m11, b.m21, b.m31, m.m01, m.m11, m.m21, m.m31, u.x, u.y, u.z, u.w);
  }

  lemma MulApplyZ(a: Mat4, b: Mat4, v: Vec4)
    ensures Apply(Mul(a, b), v).z == Apply(b, Apply(a, v)).z
  {
    var m := Mul(a, b);
    var u := Apply(a, v);
    Regroup(v.x, v.y, v.z, v.w,
            a.m00, a.m01, a.m02, a.m03, a.m10, a.m11, a.m12, a.m13,
            a.m20, a.m21, a.m22, a.m23, a.m30, a.m31, a.m32, a.m33,
            b.m02, b.m12, b.m22, b.m32, m.m02, m.m12, m.m22, m.m32, u.x, u.y, u.z, u.w);
  }

  lemma MulApplyW(a: Mat4, b: Mat4, v: Vec4)
    ensures Apply(Mul(a, b), v).w == Apply(b, Apply(a, v)).w
  {
    var m := Mul(a, b);
    var u := Apply(a, v);
    Regroup(v.x, v.y, v.z, v.w,
            a.m00, a.m01, a.m02, a.m03, a.m10, a.m11, a.m12, a.m13,
            a.m20, a.m21, a.m22, a.m23, a.m30, a.m31, a.m32, a.m33,
            b.m03, b.m13, b.m23, b.m33, m.m03, m.m13, m.m23, m.m33, u.x, u.y, u.z, u.w);
  }

  /** Applying a product applies the left factor first: v·(a·b) = (v·a)·b. */
  lemma MulApply(a: Mat4, b: Mat4, v: Vec4)
    ensures Apply(Mul(a, b), v) == Apply(b, Apply(a, v))
  {
    MulApplyX(a, b, v);
    MulApplyY(a, b, v);
    MulApplyZ(a, b, v);
    MulApplyW(a, b, v);
  }

  /** Identity is a left and a right unit of the product. */
  lemma IdentityNeutral(a: Mat4)
    ensures Mul(Identity(), a) == a
    ensures Mul(a, Identity()) == a
  {
  }

  /** The world matrix `rot_z * rot_x * trans` of the frame update rotates about z
      first, then about x, then translates. */
  lemma WorldTransformOrder(rz: Mat4, rx: Mat4, tr: Mat4, v: Vec4)
    ensures Apply(Mul(Mul(rz, rx), tr), v) == Apply(tr, Apply(rx, Apply(rz, v)))
  {
    MulApply(Mul(rz, rx), tr, v);
    MulApply(rz, rx, v);
  }

  /** A plane rotation by (c, s) scales squared length by c² + s². */
  lemma PlaneRotation(c: real, s: real, p: real, q: real)
    ensures (p * c + q * -s) * (p * c + q * -s) + (p * s + q * c) * (p * s + q * c)
         == (c * c + s * s) * (p * p + q * q)
  {
  }

  lemma TimesOne(k: real, u: real)
    requires k == 1.0
    ensures k * u == u
  {
  }

  /** When c and s are a cosine and a sine (c² + s² = 1), the rotation about x keeps
      the length of x, y, z; likewise the rotations about y and z below. */
  lemma RotateXKeepsLength(c: real, s: real, v: Vec4)
    requires c * c + s * s == 1.0
    ensures Dot(Apply(RotateX(c, s), v), Apply(RotateX(c, s), v)) == Dot(v, v)
  {
    PlaneRotation(c, s, v.y, v.z);
    TimesOne(c * c + s * s, v.y * v.y + v.z * v.z);
  }

  lemma RotateYKeepsLength(c: real, s: real, v: Vec4)
    requires c * c + s * s == 1.0
    ensures Dot(Apply(RotateY(c, s), v), Apply(RotateY(c, s), v)) == Dot(v, v)
  {
    PlaneRotation(c, s, v.x, v.z);
    TimesOne(c * c + s * s, v.x * v.x + v.z * v.z);
  }

  lemma RotateZKeepsLength(c: real, s: real, v: Vec4)
    requires c * c + s * s == 1.0
    ensures Dot(Apply(RotateZ(c, s), v), Apply(RotateZ(c, s), v)) == Dot(v, v)
  {
    PlaneRotation(c, s, v.x, v.y);
    TimesOne(c * c + s * s, v.x * v.x + v.y * v.y);
  }

  lemma DepthAtNear(near: real, far: real, a: real, b: real)
    requires far != near && a == far / (far - near) && b == -(far * near) / (far - near)
    ensures near * a + b == 0.0
  {
  }

  lemma DepthAtFar(near: real, far: real, a: real, b: real)
    requires far != near && a == far / (far - near) && b == -(far * near) / (far - near)
    ensures far * a + b == far
  {
    assert far * (far / (far - near)) == (far * far) / (far - near);
    assert far * far - far * near == far * (far - near);
  }

  /** The projection sends a point at depth `near` to depth 0 ... */
  lemma ProjectNearPlane(tanHalfFov: real, aspect: real, near: real, far: real, x: real, y: real)
    requires tanHalfFov != 0.0 && far != near
    ensures Apply(Project(tanHalfFov, aspect, near, far), Vec4(x, y, near, 1.0)).z == 0.0
  {
    var m := Project(tanHalfFov, aspect, near, far);
    DepthAtNear(near, far, m.m22, m.m32);
  }

  /** ... and a point at depth `far` to depth `far`, which the perspective divide by
      w (the input depth) turns into 1. */
  lemma ProjectFarPlane(tanHalfFov: real, aspect: real, near: real, far: real, x: real, y: real)
    requires tanHalfFov != 0.0 && far != near
    ensures Apply(Project(tanHalfFov, aspect, near, far), Vec4(x, y, far, 1.0)).z == far
  {
    var m := Project(tanHalfFov, aspect, near, far);
    DepthAtFar(near, far, m.m22, m.m32);
  }

  /** quick_inverse never reads column 3 of its input. */
  lemma QuickInverseIgnoresColumn3(m: Mat4, c0: real, c1: real, c2: real, c3: real)
    ensures QuickInverse(m.(m03 := c0, m13 := c1, m23 := c2, m33 := c3)) == QuickInverse(m)
  {
  }

  /** The quick inverse of a translation is the opposite translation. */
  lemma QuickInverseOfTranslate(x: real, y: real, z: real)
    ensures QuickInverse(Translate(x, y, z)) == Translate(-x, -y, -z)
  {
  }

  /** ... and so it undoes the translation of every point. */
  lemma QuickInverseUndoesTranslate(x: real, y: real, z: real, px: real, py: real, pz: real)
    ensures var p := Vec4(px, py, pz, 1.0);
      Apply(QuickInverse(Translate(x, y, z)), Apply(Translate(x, y, z), p)) == p
  {
    QuickInverseOfTranslate(x, y, z);
    var p := Vec4(px, py, pz, 1.0);
    TranslateMovesPoint(x, y, z, p);
    TranslateMovesPoint(-x, -y, -z, Apply(Translate(x, y, z), p));
  }

  /** A rigid motion: orthonormal rows in the 3x3 block, column 3 = (0, 0, 0, 1). */
  predicate IsRigid(m: Mat4)
  {
    && Dot(Row(m, 0), Row(m, 0)) == 1.0 && Dot(Row(m, 1), Row(m, 1)) == 1.0
    && Dot(Row(m, 2), Row(m, 2)) == 1.0
    && Dot(Row(m, 0), Row(m, 1)) == 0.0 && Dot(Row(m, 0), Row(m, 2)) == 0.0
    && Dot(Row(m, 1), Row(m, 2)) == 0.0
    && m.m03 == 0.0 && m.m13 == 0.0 && m.m23 == 0.0 && m.m33 == 1.0
  }

  /** For a rigid motion, quick_inverse is a right inverse of the product. */
  lemma QuickInverseRightInverse(m: Mat4)
    requires IsRigid(m)
    ensures Mul(m, QuickInverse(m)) == Identity()
  {
  }

  /** ... so applying `m` and then its quick inverse gives back every vector. */
  lemma QuickInverseUndoesRigid(m: Mat4, v: Vec4)
    requires IsRigid(m)
    ensures Apply(QuickInverse(m), Apply(m, v)) == v
  {
    QuickInverseRightInverse(m);
    MulApply(m, QuickInverse(m), v);
  }

  /** `point_at` fills column 3 with 1s, but since quick_inverse ignores column 3 the
      view matrix is the quick inverse of the rigid camera matrix with column 3 set
      to (0, 0, 0, 1). */
  lemma ViewMatrixFromPointAt(pos: Vec4, target: Vec4, up: Vec4, fwdLen: real, upLen: real)
    requires fwdLen != 0.0 && upLen != 0.0
    ensures var cam := PointAt(pos, target, up, fwdLen, upLen);
      QuickInverse(cam) == QuickInverse(cam.(m03 := 0.0, m13 := 0.0, m23 := 0.0, m33 := 1.0))
  {
    var cam := PointAt(pos, target, up, fwdLen, upLen);
    QuickInverseIgnoresColumn3(cam.(m03 := 0.0, m13 := 0.0, m23 := 0.0, m33 := 1.0), 1.0, 1.0, 1.0, 1.0);
  }

  /** The camera basis of `point_at`: right is orthogonal to up' and to forward. */
  lemma PointAtRightOrthogonal(pos: Vec4, target: Vec4, up: Vec4, fwdLen: real, upLen: real)
    requires fwdLen != 0.0 && upLen != 0.0
    ensures var cam := PointAt(pos, target, up, fwdLen, upLen);
      Dot(Row(cam, 0), Row(cam, 1)) == 0.0 && Dot(Row(cam, 0), Row(cam, 2)) == 0.0
  {
    var cam := PointAt(pos, target, up, fwdLen, upLen);
    CrossOrthogonal(Row(cam, 1), Row(cam, 2));
  }
}
