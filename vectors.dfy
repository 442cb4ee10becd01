/** Homogeneous 4-component vectors (`Vec4F`). Every `f32` is a mathematical real here;
    IEEE rounding, infinities and NaN are not part of the model. */
module Vectors {

  datatype Vec4 = Vec4(x: real, y: real, z: real, w: real)

  /** `Vec4F::default()`: the origin as a point, so w is 1. */
  function Default(): Vec4
  {
    Vec4(0.0, 0.0, 0.0, 1.0)
  }

  /** The same x, y, z with w reset to 1, as every binary operator leaves its result. */
  function AsPoint(v: Vec4): Vec4
  {
    Vec4(v.x, v.y, v.z, 1.0)
  }

  /** Two vectors that agree in x, y and z (w may differ). */
  predicate SameXYZ(a: Vec4, b: Vec4)
  {
    a.x == b.x && a.y == b.y && a.z == b.z
  }

  // The binary operators work on x, y, z and take w from `Vec4F::default()`,
  // so their result has w = 1 whatever the operands' w.

  function Add(a: Vec4, b: Vec4): (r: Vec4)
    ensures r.w == 1.0
  {
    Vec4(a.x + b.x, a.y + b.y, a.z + b.z, Default().w)
  }

  function Sub(a: Vec4, b: Vec4): (r: Vec4)
    ensures r.w == 1.0
  {
    Vec4(a.x - b.x, a.y - b.y, a.z - b.z, Default().w)
  }

  /** `Mul for Vec4F`: the componentwise product. */
  function MulComponents(a: Vec4, b: Vec4): (r: Vec4)
    ensures r.w == 1.0
  {
    Vec4(a.x * b.x, a.y * b.y, a.z * b.z, Default().w)
  }

  /** `Mul<f32> for Vec4F`. */
  function Scale(a: Vec4, k: real): (r: Vec4)
    ensures r.w == 1.0
  {
    Vec4(a.x * k, a.y * k, a.z * k, Default().w)
  }

  /** `Div for Vec4F`: the componentwise quotient (a zero component would give an IEEE
      infinity or NaN, which the model does not have). */
  function DivComponents(a: Vec4, b: Vec4): (r: Vec4)
    requires b.x != 0.0 && b.y != 0.0 && b.z != 0.0
    ensures r.w == 1.0
  {
    Vec4(a.x / b.x, a.y / b.y, a.z / b.z, Default().w)
  }

  /** `Div<f32> for Vec4F`. */
  function DivScalar(a: Vec4, k: real): (r: Vec4)
    requires k != 0.0
    ensures r.w == 1.0
  {
    Vec4(a.x / k, a.y / k, a.z / k, Default().w)
  }

  /** `AddAssign`: `self += rhs` updates x, y, z of `self` in place and keeps its w.
      The value-typed `self` is modelled by returning its new value. */
  function AddAssign(self: Vec4, rhs: Vec4): (r: Vec4)
    ensures r.w == self.w
  {
    self.(x := self.x + rhs.x, y := self.y + rhs.y, z := self.z + rhs.z)
  }

  /** `SubAssign`: `self -= rhs`, the same shape as AddAssign. */
  function SubAssign(self: Vec4, rhs: Vec4): (r: Vec4)
    ensures r.w == self.w
  {
    self.(x := self.x - rhs.x, y := self.y - rhs.y, z := self.z - rhs.z)
  }

  /** `dot_product`: the 3-dimensional dot product; w takes no part. */
  function Dot(a: Vec4, b: Vec4): real
  {
    a.x * b.x + a.y * b.y + a.z * b.z
  }

  /** `cross_product`: the 3-dimensional cross product, w reset to 1. */
  function Cross(a: Vec4, b: Vec4): (r: Vec4)
    ensures r.w == 1.0
  {
    Vec4(a.y * b.z - a.z * b.y, a.z * b.x - a.x * b.z, a.x * b.y - a.y * b.x, Default().w)
  }

  /** `len` is what `length()` returns: the square root of `Dot(v, v)`. The square root
      itself is left uninterpreted; this predicate says what any value standing for it
      must satisfy. */
  predicate IsLengthOf(len: real, v: Vec4)
  {
    len >= 0.0 && len * len == Dot(v, v)
  }

  /** A vector of length 1 (in x, y, z). */
  predicate IsUnit(v: Vec4)
  {
    Dot(v, v) == 1.0
  }

  /** `normalize`: `self / self.length()`, where the caller supplies the length `len`.
      It builds a new vector and leaves `self` as it was, although the source takes
      `&mut self`. The result points the same way: stretched by `len` it gives back
      `self`'s x, y, z. A zero length (NaN in the source) is outside the model. */
  function Normalize(v: Vec4, len: real): (r: Vec4)
    requires len != 0.0
    ensures r.w == 1.0
    ensures SameXYZ(Scale(r, len), v)
  {
    Vec4(v.x / len, v.y / len, v.z / len, Default().w)
  }

  /** Parameter of the point where the line from `start` to `end` meets the plane
      through `planeP` with normal `n`: 0 at `start`, 1 at `end`. */
  function PlaneParam(planeP: Vec4, n: Vec4, start: Vec4, end: Vec4): real
    requires Dot(end, n) != Dot(start, n)
  {
    var pd := -Dot(n, planeP);
    var ad := Dot(start, n);
    var bd := Dot(end, n);
    (-pd - ad) / (bd - ad)
  }

  /** `intersects_plane`: the point where the line through `start` and `end` crosses
      the plane through `planeP` with unit normal `planeN`. The source first replaces
      the caller's normal by its normalized copy; for a unit normal that copy has the
      same x, y, z (its length is 1), and only its w is reset. A line parallel to the
      plane (a zero denominator) is outside the model. */
  function IntersectsPlane(planeP: Vec4, planeN: Vec4, start: Vec4, end: Vec4): (r: Vec4)
    requires IsUnit(planeN)
    requires Dot(planeN, start) != Dot(planeN, end)
    ensures r.w == 1.0
    ensures Dot(planeN, r) == Dot(planeN, planeP)
    ensures Dot(planeN, start) == Dot(planeN, planeP) ==> SameXYZ(r, start)
    ensures Dot(planeN, end) == Dot(planeN, planeP) ==> SameXYZ(r, end)
  {
    var n := Normalize(planeN, 1.0);
    var t := PlaneParam(planeP, n, start, end);
    var r := Add(start, Scale(Sub(end, start), t));
    IntersectionOnPlane(planeP, planeN, n, start, end);
    r
  }

  /** The facts behind IntersectsPlane's contract, with `n` the normalized normal. */
  lemma IntersectionOnPlane(planeP: Vec4, planeN: Vec4, n: Vec4, start: Vec4, end: Vec4)
    requires SameXYZ(n, planeN)
    requires Dot(planeN, start) != Dot(planeN, end)
    ensures Dot(end, n) != Dot(start, n)
    ensures var r := Add(start, Scale(Sub(end, start), PlaneParam(planeP, n, start, end)));
      && Dot(planeN, r) == Dot(planeN, planeP)
      && (Dot(planeN, start) == Dot(planeN, planeP) ==> SameXYZ(r, start))
      && (Dot(planeN, end) == Dot(planeN, planeP) ==> SameXYZ(r, end))
  {
    var ad, bd, c := Dot(start, n), Dot(end, n), Dot(n, planeP);
    assert ad == Dot(planeN, start) && bd == Dot(planeN, end) && c == Dot(planeN, planeP);
    var t := PlaneParam(planeP, n, start, end);
    assert t == (c - ad) / (bd - ad);
    assert t * (bd - ad) == c - ad;
    OnLine(planeN, start, end, t);
    if c == ad {
      assert t == 0.0;
    }
    if c == bd {
      ParamAtEnd(planeP, n, start, end);
    }
  }

  /** The parameter is 1 when `end` lies on the plane. */
  lemma ParamAtEnd(planeP: Vec4, n: Vec4, start: Vec4, end: Vec4)
    requires Dot(end, n) != Dot(start, n) && Dot(n, planeP) == Dot(end, n)
    ensures PlaneParam(planeP, n, start, end) == 1.0
  {
    DivSelf(Dot(end, n) - Dot(start, n));
  }

  lemma DivSelf(k: real)
    requires k != 0.0
    ensures k / k == 1.0
  {
  }

  /** The dot product with `n` of a point on the line from `start` to `end` is the
      same interpolation of the endpoints' dot products. */
  lemma OnLine(n: Vec4, start: Vec4, end: Vec4, t: real)
    ensures Dot(n, Add(start, Scale(Sub(end, start), t)))
         == Dot(n, start) + t * (Dot(n, end) - Dot(n, start))
  {
  }

  // ---- Partners of the operators --------------------------------------------------

  /** Adding the default vector changes nothing but w, and it is orthogonal to all. */
  lemma AddDefault(v: Vec4)
    ensures Add(v, Default()) == AsPoint(v)
    ensures Dot(Default(), v) == 0.0
  {
  }

  /** Subtraction undoes addition, up to the reset of w. */
  lemma SubUndoesAdd(a: Vec4, b: Vec4)
    ensures Sub(Add(a, b), b) == AsPoint(a)
  {
  }

  /** Addition is commutative, whatever the operands' w. */
  lemma AddCommutes(a: Vec4, b: Vec4)
    ensures Add(a, b) == Add(b, a)
  {
  }

  /** Scalar division undoes scaling by the same non-zero factor. */
  lemma DivScalarUndoesScale(v: Vec4, k: real)
    requires k != 0.0
    ensures DivScalar(Scale(v, k), k) == AsPoint(v)
  {
  }

  /** Componentwise division undoes the componentwise product. */
  lemma DivUndoesMulComponents(a: Vec4, b: Vec4)
    requires b.x != 0.0 && b.y != 0.0 && b.z != 0.0
    ensures DivComponents(MulComponents(a, b), b) == AsPoint(a)
  {
  }

  /** `+=` agrees with `+` on x, y, z but keeps the w of `self`. */
  lemma AddAssignAgreesWithAdd(self: Vec4, rhs: Vec4)
    ensures AddAssign(self, rhs) == Add(self, rhs).(w := self.w)
  {
  }

  /** `-=` undoes `+=` exactly, w included. */
  lemma SubAssignUndoesAddAssign(self: Vec4, rhs: Vec4)
    ensures SubAssign(AddAssign(self, rhs), rhs) == self
  {
  }

  /** The dot product is symmetric and ignores both operands' w. */
  lemma DotSymmetricIgnoresW(a: Vec4, b: Vec4, wa: real, wb: real)
    ensures Dot(a, b) == Dot(b, a)
    ensures Dot(a.(w := wa), b.(w := wb)) == Dot(a, b)
  {
  }

  /** The cross product is orthogonal to both operands. */
  lemma CrossOrthogonal(a: Vec4, b: Vec4)
    ensures Dot(Cross(a, b), a) == 0.0
    ensures Dot(Cross(a, b), b) == 0.0
  {
  }

  /** The cross product is anti-commutative in x, y, z. */
  lemma CrossAntiCommutes(a: Vec4, b: Vec4)
    ensures Cross(a, b) == Scale(Cross(b, a), -1.0)
  {
  }

  /** Normalizing a unit vector keeps its x, y, z (its length is 1). */
  lemma NormalizeUnit(v: Vec4)
    requires IsUnit(v)
    ensures IsLengthOf(1.0, v)
    ensures Normalize(v, 1.0) == AsPoint(v)
  {
  }

  /** The square of a quotient q = a / l, times l * l, is a * a. */
  /** Dividing by the true length gives a unit vector. */
  lemma NormalizeIsUnit(v: Vec4, len: real)
    requires len != 0.0 && IsLengthOf(len, v)
    ensures IsUnit(Normalize(v, len))
  {
    DivIsMulInverse(v.x, len);
    DivIsMulInverse(v.y, len);
    DivIsMulInverse(v.z, len);
    InverseCancels(len);
    ScaledByInverseIsUnit(v.x, v.y, v.z, len, 1.0 / len);
  }

  /** With i * l == 1 and x, y, z of length l, (x, y, z) scaled by i has length 1. */
  lemma ScaledByInverseIsUnit(x: real, y: real, z: real, l: real, i: real)
    requires i * l == 1.0 && x * x + y * y + z * z == l * l
    ensures (x * i) * (x * i) + (y * i) * (y * i) + (z * i) * (z * i) == 1.0
  {
    calc {
      (x * i) * (x * i) + (y * i) * (y * i) + (z * i) * (z * i);
      (x * x + y * y + z * z) * (i * i);
      (l * l) * (i * i);
      (i * l) * (i * l);
      1.0;
    }
  }

  lemma DivIsMulInverse(a: real, l: real)
    requires l != 0.0
    ensures a / l == a * (1.0 / l)
  {
  }

  lemma InverseCancels(l: real)
    requires l != 0.0
    ensures (1.0 / l) * l == 1.0
  {
  }
}
