/** Triangles of the pipeline, their operators, and clipping against a plane
    (`clip_against_plane`) and against the four screen edges. */
module Triangles {
  import opened Vectors
  import opened Matrices
  import opened Raster

  /** `Triangle`: three vertices and a `u32` colour. */
  datatype Triangle = Triangle(p0: Vec4, p1: Vec4, p2: Vec4, color: Color)

  /** The vertices in index order. */
  function Vertices(t: Triangle): seq<Vec4>
  {
    [t.p0, t.p1, t.p2]
  }

  /** `average_z`: the mean depth of the vertices, which lies between the nearest
      and the farthest of them. */
  function AverageZ(t: Triangle): (r: real)
    ensures Min3(t.p0.z, t.p1.z, t.p2.z) <= r <= Max3(t.p0.z, t.p1.z, t.p2.z)
  {
    (t.p0.z + t.p1.z + t.p2.z) / 3.0
  }

  function Min3(a: real, b: real, c: real): real
  {
    if a <= b && a <= c then a else if b <= c then b else c
  }

  function Max3(a: real, b: real, c: real): real
  {
    if a >= b && a >= c then a else if b >= c then b else c
  }

  /** `Triangle * Triangle`: vertex-wise componentwise products, colour of the left. */
  function MulTriangles(a: Triangle, b: Triangle): Triangle
  {
    Triangle(MulComponents(a.p0, b.p0), MulComponents(a.p1, b.p1), MulComponents(a.p2, b.p2), a.color)
  }

  /** `Triangle * Mat4`: every vertex through the matrix, the colour kept. */
  function Transform(t: Triangle, m: Mat4): Triangle
  {
    Triangle(Apply(m, t.p0), Apply(m, t.p1), Apply(m, t.p2), t.color)
  }

  /** `Triangle / f32`: every vertex divided by `k`. */
  function DivTriangle(t: Triangle, k: real): Triangle
    requires k != 0.0
  {
    Triangle(DivScalar(t.p0, k), DivScalar(t.p1, k), DivScalar(t.p2, k), t.color)
  }

  /** `Triangle + Vec4F`: every vertex moved by `v`. */
  function AddTriangle(t: Triangle, v: Vec4): Triangle
  {
    Triangle(Add(t.p0, v), Add(t.p1, v), Add(t.p2, v), t.color)
  }

  /** `Triangle::default()`: three default vertices and colour 0. */
  function DefaultTriangle(): (t: Triangle)
    ensures t.color == 0
    ensures forall v | v in Vertices(t) :: v == Vec4(0.0, 0.0, 0.0, 1.0)
  {
    Triangle(Default(), Default(), Default(), 0)
  }

  /** The product of two triangles is taken vertex by vertex, and with the
      all-ones-in-x/y/z triangle on the right it keeps the left's x, y, z. */
  lemma MulTrianglesOnes(a: Triangle, c: Color)
    ensures var one := Vec4(1.0, 1.0, 1.0, 1.0);
      var r := MulTriangles(a, Triangle(one, one, one, c));
      r.color == a.color && SameXYZ(r.p0, a.p0) && SameXYZ(r.p1, a.p1) && SameXYZ(r.p2, a.p2)
  {
  }

  /** Transforming by `a` and then by `b` is transforming by `a * b`. */
  lemma TransformCompose(t: Triangle, a: Mat4, b: Mat4)
    ensures Transform(Transform(t, a), b) == Transform(t, Mul(a, b))
  {
    MulApply(a, b, t.p0);
    MulApply(a, b, t.p1);
    MulApply(a, b, t.p2);
  }

  /** Transforming by the identity keeps the triangle. */
  lemma TransformIdentity(t: Triangle)
    ensures Transform(t, Identity()) == t
  {
    IdentityApply(t.p0);
    IdentityApply(t.p1);
    IdentityApply(t.p2);
  }

  /** Dividing by `k` is undone by scaling back by `k`, in x, y, z. */
  lemma DivTriangleUndone(t: Triangle, k: real)
    requires k != 0.0
    ensures var d := DivTriangle(t, k);
      SameXYZ(Scale(d.p0, k), t.p0) && SameXYZ(Scale(d.p1, k), t.p1) && SameXYZ(Scale(d.p2, k), t.p2)
  {
    DivScalarUndoesScale(t.p0, k);
    DivScalarUndoesScale(t.p1, k);
    DivScalarUndoesScale(t.p2, k);
  }

  /** Two translations of a triangle make one by the sum. */
  lemma AddTriangleTwice(t: Triangle, u: Vec4, v: Vec4)
    ensures AddTriangle(AddTriangle(t, u), v) == AddTriangle(t, Add(u, v))
  {
  }

  // ---- Clipping against one plane ----------------------------------------------------

  /** The `dist` closure of `clip_against_plane`: the signed distance of `p` from the
      plane through `planeP` with (unit) normal `n`. */
  function Dist(planeP: Vec4, n: Vec4, p: Vec4): real
  {
    n.x * p.x + n.y * p.y + n.z * p.z - Dot(n, planeP)
  }

  /** The vertices whose flag is set, in vertex order. */
  function Select(t: Triangle, k0: bool, k1: bool, k2: bool): seq<Vec4>
  {
    (if k0 then [t.p0] else []) + (if k1 then [t.p1] else []) + (if k2 then [t.p2] else [])
  }

  /** The vertices with a non-negative distance (`inside_points`), in vertex order. */
  function InsidePoints(planeP: Vec4, n: Vec4, t: Triangle): seq<Vec4>
  {
    Select(t, Dist(planeP, n, t.p0) >= 0.0, Dist(planeP, n, t.p1) >= 0.0, Dist(planeP, n, t.p2) >= 0.0)
  }

  /** The other vertices (`outside_points`), in vertex order. */
  function OutsidePoints(planeP: Vec4, n: Vec4, t: Triangle): seq<Vec4>
  {
    Select(t, !(Dist(planeP, n, t.p0) >= 0.0), !(Dist(planeP, n, t.p1) >= 0.0), !(Dist(planeP, n, t.p2) >= 0.0))
  }

  /** Every vertex is either selected or unselected. */
  lemma SelectSplits(t: Triangle, k0: bool, k1: bool, k2: bool)
    ensures |Select(t, k0, k1, k2)| + |Select(t, !k0, !k1, !k2)| == 3
  {
  }

  /** Each selected vertex has its flag set. */
  lemma SelectFlags(t: Triangle, k0: bool, k1: bool, k2: bool, i: nat)
    requires i < |Select(t, k0, k1, k2)|
    ensures var v := Select(t, k0, k1, k2)[i];
      (v == t.p0 && k0) || (v == t.p1 && k1) || (v == t.p2 && k2)
  {
  }

  /** The inside points are at a non-negative distance, the outside ones at a
      negative one. */
  lemma PointSides(planeP: Vec4, n: Vec4, t: Triangle, i: nat)
    ensures i < |InsidePoints(planeP, n, t)| ==> Dist(planeP, n, InsidePoints(planeP, n, t)[i]) >= 0.0
    ensures i < |OutsidePoints(planeP, n, t)| ==> Dist(planeP, n, OutsidePoints(planeP, n, t)[i]) < 0.0
  {
    var d0, d1, d2 := Dist(planeP, n, t.p0) >= 0.0, Dist(planeP, n, t.p1) >= 0.0, Dist(planeP, n, t.p2) >= 0.0;
    if i < |InsidePoints(planeP, n, t)| {
      SelectFlags(t, d0, d1, d2, i);
    }
    if i < |OutsidePoints(planeP, n, t)| {
      SelectFlags(t, !d0, !d1, !d2, i);
    }
  }

  /** The normal as `clip_against_plane` leaves it in its caller's variable. */
  function ClipNormal(planeN: Vec4): Vec4
  {
    Normalize(planeN, 1.0)
  }

  /** The point where the edge from an inside vertex `a` to an outside vertex `b`
      crosses the plane. */
  function Crossing(planeP: Vec4, planeN: Vec4, a: Vec4, b: Vec4): Vec4
    requires IsUnit(planeN)
    requires Dist(planeP, ClipNormal(planeN), a) >= 0.0 > Dist(planeP, ClipNormal(planeN), b)
  {
    NormalizeUnit(planeN);
    IntersectsPlane(planeP, ClipNormal(planeN), a, b)
  }

  /** `clip_against_plane(plane_p, plane_n, in_tri)`: the part of the triangle on the
      non-negative side of the plane, as zero, one or two triangles. */
  function ClipTriangle(planeP: Vec4, planeN: Vec4, t: Triangle): seq<Triangle>
    requires IsUnit(planeN)
  {
    var n := ClipNormal(planeN);
    var ins := InsidePoints(planeP, n, t);
    var outs := OutsidePoints(planeP, n, t);
    if |ins| == 0 then []
    else if |ins| == 3 then [t]
    else if |ins| == 1 && |outs| == 2 then
      PointSides(planeP, n, t, 0);
      PointSides(planeP, n, t, 1);
      [Triangle(ins[0], Crossing(planeP, planeN, ins[0], outs[0]), Crossing(planeP, planeN, ins[0], outs[1]), t.color)]
    else if |ins| == 2 && |outs| == 1 then
      PointSides(planeP, n, t, 0);
      PointSides(planeP, n, t, 1);
      var t1 := Triangle(ins[0], ins[1], Crossing(planeP, planeN, ins[0], outs[0]), t.color);
      var t2 := Triangle(ins[1], t1.p2, Crossing(planeP, planeN, ins[1], outs[0]), t.color);
      [t1, t2]
    else []
  }

  /** Every vertex is inside or outside, never both, so the counts sum to 3 and the
      last branch of `clip_against_plane` is never taken. */
  lemma ClipPartition(planeP: Vec4, n: Vec4, t: Triangle)
    ensures |InsidePoints(planeP, n, t)| + |OutsidePoints(planeP, n, t)| == 3
  {
    SelectSplits(t, Dist(planeP, n, t.p0) >= 0.0, Dist(planeP, n, t.p1) >= 0.0, Dist(planeP, n, t.p2) >= 0.0);
  }

  /** The shape of the result for each inside count: nothing, the triangle itself,
      one triangle, or two triangles sharing the crossing on the first outside edge;
      every result triangle has the input's colour. */
  lemma ClipCases(planeP: Vec4, planeN: Vec4, t: Triangle)
    requires IsUnit(planeN)
    ensures var ins := InsidePoints(planeP, ClipNormal(planeN), t);
      var r := ClipTriangle(planeP, planeN, t);
      && (|ins| == 0 ==> r == [])
      && (|ins| == 3 ==> r == [t])
      && (|ins| == 1 ==> |r| == 1 && r[0].p0 == ins[0])
      && (|ins| == 2 ==> |r| == 2 && r[0].p0 == ins[0] && r[0].p1 == ins[1]
                                  && r[1].p0 == ins[1] && r[1].p1 == r[0].p2)
      && |r| <= 2
    ensures forall u | u in ClipTriangle(planeP, planeN, t) :: u.color == t.color
  {
    ClipPartition(planeP, ClipNormal(planeN), t);
  }

  /** Where the new vertices go: with one vertex inside, the triangle from it to the
      crossings on its two edges to the outside vertices; with two inside, the two
      triangles over the crossings on their edges to the outside vertex. Every new
      vertex lies on the plane. */
  lemma ClipVertices(planeP: Vec4, planeN: Vec4, t: Triangle)
    requires IsUnit(planeN)
    ensures var n := ClipNormal(planeN);
      var ins := InsidePoints(planeP, n, t);
      var outs := OutsidePoints(planeP, n, t);
      var r := ClipTriangle(planeP, planeN, t);
      |ins| == 1 ==>
        && |outs| == 2
        && Dist(planeP, n, ins[0]) >= 0.0 > Dist(planeP, n, outs[0])
        && Dist(planeP, n, ins[0]) >= 0.0 > Dist(planeP, n, outs[1])
        && r == [Triangle(ins[0], Crossing(planeP, planeN, ins[0], outs[0]),
                          Crossing(planeP, planeN, ins[0], outs[1]), t.color)]
        && Dist(planeP, n, r[0].p1) == 0.0 && Dist(planeP, n, r[0].p2) == 0.0
    ensures var n := ClipNormal(planeN);
      var ins := InsidePoints(planeP, n, t);
      var outs := OutsidePoints(planeP, n, t);
      var r := ClipTriangle(planeP, planeN, t);
      |ins| == 2 ==>
        && |outs| == 1
        && Dist(planeP, n, ins[0]) >= 0.0 > Dist(planeP, n, outs[0])
        && Dist(planeP, n, ins[1]) >= 0.0 > Dist(planeP, n, outs[0])
        && |r| == 2
        && r[0] == Triangle(ins[0], ins[1], Crossing(planeP, planeN, ins[0], outs[0]), t.color)
        && r[1] == Triangle(ins[1], Crossing(planeP, planeN, ins[0], outs[0]),
                            Crossing(planeP, planeN, ins[1], outs[0]), t.color)
        && Dist(planeP, n, r[0].p2) == 0.0 && Dist(planeP, n, r[1].p2) == 0.0
  {
    var n := ClipNormal(planeN);
    var ins := InsidePoints(planeP, n, t);
    var outs := OutsidePoints(planeP, n, t);
    ClipPartition(planeP, n, t);
    PointSides(planeP, n, t, 0);
    PointSides(planeP, n, t, 1);
    if |ins| == 1 {
      CrossingOnPlane(planeP, planeN, ins[0], outs[0]);
      CrossingOnPlane(planeP, planeN, ins[0], outs[1]);
    } else if |ins| == 2 {
      CrossingOnPlane(planeP, planeN, ins[0], outs[0]);
      CrossingOnPlane(planeP, planeN, ins[1], outs[0]);
    }
  }

  /** A triangle whose vertices all lie on the non-negative side of a plane. */
  predicate InHalfSpace(planeP: Vec4, n: Vec4, t: Triangle)
  {
    Dist(planeP, n, t.p0) >= 0.0 && Dist(planeP, n, t.p1) >= 0.0 && Dist(planeP, n, t.p2) >= 0.0
  }

  /** A crossing lies on the plane it was computed for. */
  lemma CrossingOnPlane(planeP: Vec4, planeN: Vec4, a: Vec4, b: Vec4)
    requires IsUnit(planeN)
    requires Dist(planeP, ClipNormal(planeN), a) >= 0.0 > Dist(planeP, ClipNormal(planeN), b)
    ensures Dist(planeP, ClipNormal(planeN), Crossing(planeP, planeN, a, b)) == 0.0
  {
  }

  /** Every triangle the clip returns lies on the kept side of the plane. */
  lemma ClipKeepsInside(planeP: Vec4, planeN: Vec4, t: Triangle)
    requires IsUnit(planeN)
    ensures forall u | u in ClipTriangle(planeP, planeN, t) :: InHalfSpace(planeP, ClipNormal(planeN), u)
  {
    var n := ClipNormal(planeN);
    var ins := InsidePoints(planeP, n, t);
    var outs := OutsidePoints(planeP, n, t);
    ClipPartition(planeP, n, t);
    if |ins| == 1 {
      CrossingOnPlane(planeP, planeN, ins[0], outs[0]);
      CrossingOnPlane(planeP, planeN, ins[0], outs[1]);
    } else if |ins| == 2 {
      CrossingOnPlane(planeP, planeN, ins[0], outs[0]);
      CrossingOnPlane(planeP, planeN, ins[1], outs[0]);
    }
  }

  // ---- Clipped triangles stay inside earlier planes ---------------------------------------

  lemma MulMonoReal(a: real, b: real, y: real)
    requires y > 0.0
    ensures a > b ==> a * y > b * y
  {
    if a > b {
      assert a * y - b * y == (a - b) * y;
    }
  }

  lemma DivInUnit(x: real, y: real)
    requires 0.0 <= x <= y && y > 0.0
    ensures 0.0 <= x / y <= 1.0
  {
    var q := x / y;
    assert q * y == x;
    MulMonoReal(q, 1.0, y);
    MulMonoReal(0.0, q, y);
  }

  lemma ParamInUnit(c: real, ad: real, bd: real)
    requires ad >= c > bd
    ensures 0.0 <= (c - ad) / (bd - ad) <= 1.0
  {
    var x, y := ad - c, ad - bd;
    assert (c - ad) / (bd - ad) == x / y by {
      assert c - ad == -x && bd - ad == -y;
      NegDiv(x, y);
    }
    DivInUnit(x, y);
  }

  lemma NegDiv(x: real, y: real)
    requires y != 0.0
    ensures (-x) / (-y) == x / y
  {
  }

  lemma ConvexNonNegative(fa: real, fb: real, t: real)
    requires 0.0 <= t <= 1.0 && fa >= 0.0 && fb >= 0.0
    ensures fa + t * (fb - fa) >= 0.0
  {
    assert fa + t * (fb - fa) == (1.0 - t) * fa + t * fb;
    MulNonNegative(1.0 - t, fa);
    MulNonNegative(t, fb);
  }

  lemma MulNonNegative(a: real, b: real)
    requires a >= 0.0 && b >= 0.0
    ensures a * b >= 0.0
  {
  }

  /** A crossing is the point at parameter t in [0, 1] on the edge from `a` to `b`. */
  lemma CrossingOnEdge(planeP: Vec4, planeN: Vec4, a: Vec4, b: Vec4) returns (t: real)
    requires IsUnit(planeN)
    requires Dist(planeP, ClipNormal(planeN), a) >= 0.0 > Dist(planeP, ClipNormal(planeN), b)
    ensures 0.0 <= t <= 1.0
    ensures Crossing(planeP, planeN, a, b) == Add(a, Scale(Sub(b, a), t))
  {
    var n := ClipNormal(planeN);
    NormalizeUnit(planeN);
    var c, ad, bd := Dot(n, planeP), Dot(a, n), Dot(b, n);
    assert ad >= c > bd;
    t := PlaneParam(planeP, n, a, b);
    assert t == (c - ad) / (bd - ad);
    ParamInUnit(c, ad, bd);
  }

  /** A crossing of two points on the kept side of another plane is on that side too:
      half-spaces are convex. */
  lemma CrossingKeepsHalfSpace(planeP: Vec4, planeN: Vec4, a: Vec4, b: Vec4, q: Vec4, m: Vec4)
    requires IsUnit(planeN)
    requires Dist(planeP, ClipNormal(planeN), a) >= 0.0 > Dist(planeP, ClipNormal(planeN), b)
    requires Dist(q, m, a) >= 0.0 && Dist(q, m, b) >= 0.0
    ensures Dist(q, m, Crossing(planeP, planeN, a, b)) >= 0.0
  {
    var t := CrossingOnEdge(planeP, planeN, a, b);
    OnLine(m, a, b, t);
    ConvexNonNegative(Dist(q, m, a), Dist(q, m, b), t);
  }

  /** Clipping a triangle that lies on the kept side of some plane (q, m) against any
      plane gives triangles on the kept side of (q, m). */
  lemma ClipKeepsHalfSpace(planeP: Vec4, planeN: Vec4, t: Triangle, q: Vec4, m: Vec4)
    requires IsUnit(planeN) && InHalfSpace(q, m, t)
    ensures forall u | u in ClipTriangle(planeP, planeN, t) :: InHalfSpace(q, m, u)
  {
    var n := ClipNormal(planeN);
    var ins := InsidePoints(planeP, n, t);
    var outs := OutsidePoints(planeP, n, t);
    ClipPartition(planeP, n, t);
    PointSides(planeP, n, t, 0);
    PointSides(planeP, n, t, 1);
    var d0, d1, d2 := Dist(planeP, n, t.p0) >= 0.0, Dist(planeP, n, t.p1) >= 0.0, Dist(planeP, n, t.p2) >= 0.0;
    if |ins| == 1 {
      SelectFlags(t, d0, d1, d2, 0);
      SelectFlags(t, !d0, !d1, !d2, 0);
      SelectFlags(t, !d0, !d1, !d2, 1);
      CrossingKeepsHalfSpace(planeP, planeN, ins[0], outs[0], q, m);
      CrossingKeepsHalfSpace(planeP, planeN, ins[0], outs[1], q, m);
    } else if |ins| == 2 {
      SelectFlags(t, d0, d1, d2, 0);
      SelectFlags(t, d0, d1, d2, 1);
      SelectFlags(t, !d0, !d1, !d2, 0);
      CrossingKeepsHalfSpace(planeP, planeN, ins[0], outs[0], q, m);
      CrossingKeepsHalfSpace(planeP, planeN, ins[1], outs[0], q, m);
    }
  }

  // ---- The clip, step by step ------------------------------------------------------------

  /** `clip_against_plane` as the source runs it: the normal is normalized and written
      back, the vertices are sorted into fixed-size inside and outside arrays with
      running counters, and the counts select the output. */
  method ClipAgainstPlane(planeP: Vec4, planeN: Vec4, t: Triangle) returns (r: seq<Triangle>, newN: Vec4)
    requires IsUnit(planeN)
    ensures newN == ClipNormal(planeN)
    ensures r == ClipTriangle(planeP, planeN, t)
  {
    newN := Normalize(planeN, 1.0);
    NormalizeUnit(planeN);
    var insidePoints, insideCount, outsidePoints, outsideCount := Classify(planeP, newN, t);
    ghost var ins, outs := InsidePoints(planeP, newN, t), OutsidePoints(planeP, newN, t);
    assert |ins| == insideCount && |outs| == outsideCount;
    assert forall k | 0 <= k < insideCount :: insidePoints[k] == ins[k];
    assert forall k | 0 <= k < outsideCount :: outsidePoints[k] == outs[k];
    PointSides(planeP, newN, t, 0);
    PointSides(planeP, newN, t, 1);
    if insideCount == 0 {
      return [], newN;
    }
    if insideCount == 3 {
      return [t], newN;
    }
    if insideCount == 1 && outsideCount == 2 {
      var out1 := DefaultTriangle().(color := t.color);
      out1 := out1.(p0 := insidePoints[0]);
      out1 := out1.(p1 := Crossing(planeP, planeN, insidePoints[0], outsidePoints[0]));
      out1 := out1.(p2 := Crossing(planeP, planeN, insidePoints[0], outsidePoints[1]));
      return [out1], newN;
    }
    if insideCount == 2 && outsideCount == 1 {
      var out1 := DefaultTriangle().(color := t.color);
      var out2 := DefaultTriangle().(color := t.color);
      out1 := out1.(p0 := insidePoints[0]);
      out1 := out1.(p1 := insidePoints[1]);
      out1 := out1.(p2 := Crossing(planeP, planeN, insidePoints[0], outsidePoints[0]));
      out2 := out2.(p0 := insidePoints[1]);
      out2 := out2.(p1 := out1.p2);
      out2 := out2.(p2 := Crossing(planeP, planeN, insidePoints[1], outsidePoints[0]));
      return [out1, out2], newN;
    }
    r := [];
  }

  /** The classification step of `clip_against_plane`: each vertex in turn goes to
      the next free slot of the inside or the outside array. */
  method Classify(planeP: Vec4, n: Vec4, t: Triangle)
    returns (insidePoints: array<Vec4>, insideCount: nat, outsidePoints: array<Vec4>, outsideCount: nat)
    ensures insidePoints.Length == 3 && outsidePoints.Length == 3
    ensures insideCount <= 3 && outsideCount <= 3
    ensures insidePoints[..insideCount] == InsidePoints(planeP, n, t)
    ensures outsidePoints[..outsideCount] == OutsidePoints(planeP, n, t)
  {
    insidePoints := new Vec4[3](_ => Default());
    outsidePoints := new Vec4[3](_ => Default());
    insideCount, outsideCount := 0, 0;
    var vs := Vertices(t);
    for k := 0 to 3
      invariant insideCount + outsideCount == k
      invariant insidePoints[..insideCount] == InsidePrefix(planeP, n, vs, k)
      invariant outsidePoints[..outsideCount] == OutsidePrefix(planeP, n, vs, k)
    {
      if Dist(planeP, n, vs[k]) >= 0.0 {
        insidePoints[insideCount] := vs[k];
        insideCount := insideCount + 1;
      } else {
        outsidePoints[outsideCount] := vs[k];
        outsideCount := outsideCount + 1;
      }
    }
    PrefixesOfVertices(planeP, n, t);
  }

  lemma PrefixesOfVertices(planeP: Vec4, n: Vec4, t: Triangle)
    ensures InsidePrefix(planeP, n, Vertices(t), 3) == InsidePoints(planeP, n, t)
    ensures OutsidePrefix(planeP, n, Vertices(t), 3) == OutsidePoints(planeP, n, t)
  {
    var vs := Vertices(t);
    assert InsidePrefix(planeP, n, vs, 1) == [] + (if Dist(planeP, n, t.p0) >= 0.0 then [t.p0] else []);
    assert OutsidePrefix(planeP, n, vs, 1) == [] + (if Dist(planeP, n, t.p0) >= 0.0 then [] else [t.p0]);
  }

  /** The inside (and outside) points among the first k vertices. */
  function InsidePrefix(planeP: Vec4, n: Vec4, vs: seq<Vec4>, k: nat): seq<Vec4>
    requires k <= |vs|
  {
    if k == 0 then []
    else InsidePrefix(planeP, n, vs, k - 1) + (if Dist(planeP, n, vs[k - 1]) >= 0.0 then [vs[k - 1]] else [])
  }

  function OutsidePrefix(planeP: Vec4, n: Vec4, vs: seq<Vec4>, k: nat): seq<Vec4>
    requires k <= |vs|
  {
    if k == 0 then []
    else OutsidePrefix(planeP, n, vs, k - 1) + (if Dist(planeP, n, vs[k - 1]) >= 0.0 then [] else [vs[k - 1]])
  }

  // ---- The screen-edge worklist ------------------------------------------------------------

  /** A clipping plane: a point on it and its normal. */
  datatype Plane = Plane(pos: Vec4, normal: Vec4)

  /** The four screen edges the frame update clips against, in order: top (y >= 0),
      bottom (y <= height - 1), left (x >= 0) and right (x <= width - 1). */
  function ScreenPlanes(w: nat, h: nat): seq<Plane>
  {
    [TopEdge(), BottomEdge(h), LeftEdge(), RightEdge(w)]
  }

  function TopEdge(): Plane { Plane(Vec4(0.0, 0.0, 0.0, 1.0), Vec4(0.0, 1.0, 0.0, 1.0)) }
  function BottomEdge(h: nat): Plane { Plane(Vec4(0.0, h as real - 1.0, 0.0, 1.0), Vec4(0.0, -1.0, 0.0, 1.0)) }
  function LeftEdge(): Plane { Plane(Vec4(0.0, 0.0, 0.0, 1.0), Vec4(1.0, 0.0, 0.0, 1.0)) }
  function RightEdge(w: nat): Plane { Plane(Vec4(w as real - 1.0, 0.0, 0.0, 1.0), Vec4(-1.0, 0.0, 0.0, 1.0)) }

  lemma ScreenPlanesUnit(w: nat, h: nat)
    ensures |ScreenPlanes(w, h)| == 4 && UnitPlanes(ScreenPlanes(w, h))
  {
  }

  predicate UnitPlanes(ps: seq<Plane>)
  {
    forall i | 0 <= i < |ps| :: IsUnit(ps[i].normal)
  }

  /** One pass of the worklist: every triangle of `ts` clipped against the plane,
      the results concatenated in order. */
  function ClipAll(planeP: Vec4, planeN: Vec4, ts: seq<Triangle>): seq<Triangle>
    requires IsUnit(planeN)
    decreases |ts|
  {
    if ts == [] then []
    else ClipAll(planeP, planeN, ts[..|ts| - 1]) + ClipTriangle(planeP, planeN, ts[|ts| - 1])
  }

  /** The worklist after passes over all of `ps`, in order. */
  function ClipPlanes(ps: seq<Plane>, ts: seq<Triangle>): seq<Triangle>
    requires UnitPlanes(ps)
    decreases |ps|
  {
    if ps == [] then ts
    else ClipPlanes(ps[1..], ClipAll(ps[0].pos, ps[0].normal, ts))
  }

  /** The worklist loop of the frame update for one triangle: a singleton list, then
      for each screen edge a fresh list that collects the clips of the old one. What
      leaves it is described by ScreenPassesFacts. */
  method ClipToScreen(w: nat, h: nat, t: Triangle) returns (list: seq<Triangle>)
    ensures UnitPlanes(ScreenPlanes(w, h)) && list == ClipPlanes(ScreenPlanes(w, h), [t])
  {
    ScreenPlanesUnit(w, h);
    list := ClipThroughPlanes(ScreenPlanes(w, h), [t]);
  }

  /** What leaves the four screen passes: at most 16 triangles of the original colour,
      all on the screen. */
  lemma ScreenPassesFacts(w: nat, h: nat, ps: seq<Plane>, t: Triangle, list: seq<Triangle>)
    requires ps == ScreenPlanes(w, h) && UnitPlanes(ps)
    requires list == ClipPlanes(ps, [t])
    ensures |list| <= 16
    ensures forall u | u in list :: u.color == t.color
    ensures forall u | u in list :: OnScreen(w, h, u.p0) && OnScreen(w, h, u.p1) && OnScreen(w, h, u.p2)
  {
    FourPassesCount(ps, t);
    forall u | u in list
      ensures OnScreen(w, h, u.p0) && OnScreen(w, h, u.p1) && OnScreen(w, h, u.p2)
    {
      FourPassesInside(ps, t, u);
      ScreenEdgesOnScreen(w, h, ps, u);
    }
  }

  /** The outer loop of the worklist: one pass per plane, in order. */
  method ClipThroughPlanes(planes: seq<Plane>, ts: seq<Triangle>) returns (list: seq<Triangle>)
    requires UnitPlanes(planes)
    ensures list == ClipPlanes(planes, ts)
  {
    list := ts;
    assert planes[0..] == planes;
    for i := 0 to |planes|
      invariant ClipPlanes(planes[i..], list) == ClipPlanes(planes, ts)
    {
      UnitPlanesSuffix(planes, i + 1);
      var newList := ClipPass(planes[i], list);
      ClipPlanesStep(planes, i, list);
      list := newList;
    }
  }

  lemma UnitPlanesSuffix(ps: seq<Plane>, i: nat)
    requires UnitPlanes(ps) && i <= |ps|
    ensures UnitPlanes(ps[i..])
  {
    assert forall k | 0 <= k < |ps| - i :: ps[i..][k] == ps[i + k];
  }

  lemma ClipPlanesStep(ps: seq<Plane>, i: nat, ts: seq<Triangle>)
    requires UnitPlanes(ps) && i < |ps|
    ensures UnitPlanes(ps[i..]) && UnitPlanes(ps[i + 1..]) && IsUnit(ps[i].normal)
    ensures ClipPlanes(ps[i..], ts) == ClipPlanes(ps[i + 1..], ClipAll(ps[i].pos, ps[i].normal, ts))
  {
    UnitPlanesSuffix(ps, i);
    UnitPlanesSuffix(ps, i + 1);
    assert ps[i..][1..] == ps[i + 1..];
  }

  /** One pass of the worklist: drain the list through the clip into a new list. As
      in the source, each clip gets the normal the previous one wrote back. */
  method ClipPass(plane: Plane, list: seq<Triangle>) returns (newList: seq<Triangle>)
    requires IsUnit(plane.normal)
    ensures newList == ClipAll(plane.pos, plane.normal, list)
  {
    newList := [];
    var n := plane.normal;
    for j := 0 to |list|
      invariant IsUnit(n) && ClipNormal(n) == ClipNormal(plane.normal)
      invariant newList == ClipAll(plane.pos, plane.normal, list[..j])
    {
      var tris;
      ClipDependsOnClipNormal(plane.pos, n, plane.normal, list[j]);
      ClipNormalIdempotent(n);
      tris, n := ClipAgainstPlane(plane.pos, n, list[j]);
      assert list[..j + 1][..j] == list[..j];
      newList := newList + tris;
    }
    assert list[..|list|] == list;
  }

  /** Normalizing a unit normal again changes nothing, so the normal the clip hands
      back to the pass can be handed to the next clip. */
  lemma ClipNormalIdempotent(n: Vec4)
    requires IsUnit(n)
    ensures IsUnit(ClipNormal(n)) && ClipNormal(ClipNormal(n)) == ClipNormal(n)
  {
    NormalizeUnit(n);
    assert IsUnit(ClipNormal(n));
    NormalizeUnit(ClipNormal(n));
  }

  /** The clip sees its normal only through `ClipNormal`. */
  lemma ClipDependsOnClipNormal(planeP: Vec4, n1: Vec4, n2: Vec4, t: Triangle)
    requires IsUnit(n1) && IsUnit(n2) && ClipNormal(n1) == ClipNormal(n2)
    ensures ClipTriangle(planeP, n1, t) == ClipTriangle(planeP, n2, t)
  {
  }

  /** Each pass at most doubles the list and keeps the colour. */
  lemma {:induction false} ClipAllGrowth(planeP: Vec4, planeN: Vec4, ts: seq<Triangle>, c: Color)
    requires IsUnit(planeN)
    requires forall u | u in ts :: u.color == c
    ensures |ClipAll(planeP, planeN, ts)| <= 2 * |ts|
    ensures forall u | u in ClipAll(planeP, planeN, ts) :: u.color == c
    decreases |ts|
  {
    if ts != [] {
      var last := ts[|ts| - 1];
      assert last in ts;
      ClipAllGrowth(planeP, planeN, ts[..|ts| - 1], c);
      ClipCases(planeP, planeN, last);
    }
  }

  /** Each pass puts every triangle on the kept side of its own plane. */
  lemma {:induction false} ClipAllInside(planeP: Vec4, planeN: Vec4, ts: seq<Triangle>)
    requires IsUnit(planeN)
    ensures forall u | u in ClipAll(planeP, planeN, ts) :: InHalfSpace(planeP, ClipNormal(planeN), u)
    decreases |ts|
  {
    if ts != [] {
      ClipAllInside(planeP, planeN, ts[..|ts| - 1]);
      ClipKeepsInside(planeP, planeN, ts[|ts| - 1]);
    }
  }

  /** Each pass keeps every triangle on the kept side of an earlier plane (q, m). */
  lemma {:induction false} ClipAllKeeps(planeP: Vec4, planeN: Vec4, ts: seq<Triangle>, q: Vec4, m: Vec4)
    requires IsUnit(planeN)
    requires forall u | u in ts :: InHalfSpace(q, m, u)
    ensures forall u | u in ClipAll(planeP, planeN, ts) :: InHalfSpace(q, m, u)
    decreases |ts|
  {
    if ts != [] {
      var last := ts[|ts| - 1];
      assert last in ts;
      assert forall u | u in ts[..|ts| - 1] :: u in ts;
      ClipAllKeeps(planeP, planeN, ts[..|ts| - 1], q, m);
      ClipKeepsHalfSpace(planeP, planeN, last, q, m);
    }
  }

  function Pow2(n: nat): nat
  {
    if n == 0 then 1 else 2 * Pow2(n - 1)
  }

  /** After passes over `ps` the list has at most 2^|ps| times as many triangles,
      all still of the original colour. */
  lemma {:induction false} ClipPlanesGrowth(ps: seq<Plane>, ts: seq<Triangle>, c: Color)
    requires UnitPlanes(ps)
    requires forall u | u in ts :: u.color == c
    ensures |ClipPlanes(ps, ts)| <= Pow2(|ps|) * |ts|
    ensures forall u | u in ClipPlanes(ps, ts) :: u.color == c
    decreases |ps|
  {
    if ps != [] {
      var next := ClipAll(ps[0].pos, ps[0].normal, ts);
      ClipAllGrowth(ps[0].pos, ps[0].normal, ts, c);
      UnitPlanesSuffix(ps, 1);
      ClipPlanesGrowth(ps[1..], next, c);
      Pow2Bound(|ps|, |ts|, |next|);
    }
  }

  /** The arithmetic step of ClipPlanesGrowth. */
  lemma Pow2Bound(n: nat, k: nat, m: nat)
    requires n > 0 && m <= 2 * k
    ensures Pow2(n - 1) * m <= Pow2(n) * k
  {
    MulMono(Pow2(n - 1), 2 * k, m);
    assert Pow2(n - 1) * (2 * k) == Pow2(n) * k;
  }

  /** Passes over further planes keep every triangle on the kept side of (q, m). */
  lemma {:induction false} ClipPlanesKeeps(ps: seq<Plane>, ts: seq<Triangle>, q: Vec4, m: Vec4)
    requires UnitPlanes(ps)
    requires forall u | u in ts :: InHalfSpace(q, m, u)
    ensures forall u | u in ClipPlanes(ps, ts) :: InHalfSpace(q, m, u)
    decreases |ps|
  {
    if ps != [] {
      ClipAllKeeps(ps[0].pos, ps[0].normal, ts, q, m);
      UnitPlanesSuffix(ps, 1);
      ClipPlanesKeeps(ps[1..], ClipAll(ps[0].pos, ps[0].normal, ts), q, m);
    }
  }

  /** After passes over `ps` every triangle lies on the kept side of every plane of `ps`. */
  lemma {:induction false} ClipPlanesInside(ps: seq<Plane>, ts: seq<Triangle>, u: Triangle, i: nat)
    requires UnitPlanes(ps) && i < |ps|
    requires u in ClipPlanes(ps, ts)
    ensures InHalfSpace(ps[i].pos, ClipNormal(ps[i].normal), u)
    decreases |ps|
  {
    UnitPlanesSuffix(ps, 1);
    var next := ClipAll(ps[0].pos, ps[0].normal, ts);
    if i == 0 {
      ClipAllInside(ps[0].pos, ps[0].normal, ts);
      ClipPlanesKeeps(ps[1..], next, ps[0].pos, ClipNormal(ps[0].normal));
    } else {
      ClipPlanesInside(ps[1..], next, u, i - 1);
    }
  }

  /** Four passes leave at most 16 triangles, all of the original colour. */
  lemma FourPassesCount(ps: seq<Plane>, t: Triangle)
    requires UnitPlanes(ps) && |ps| == 4
    ensures |ClipPlanes(ps, [t])| <= 16
    ensures forall u | u in ClipPlanes(ps, [t]) :: u.color == t.color
  {
    ClipPlanesGrowth(ps, [t], t.color);
    assert Pow2(4) == 16;
  }

  /** A point inside the screen rectangle [0, w - 1] x [0, h - 1]. */
  predicate OnScreen(w: nat, h: nat, v: Vec4)
  {
    0.0 <= v.x <= w as real - 1.0 && 0.0 <= v.y <= h as real - 1.0
  }

  // The distances from the four screen planes are the distances from the four
  // sides of the screen.

  lemma TopEdgeDist(v: Vec4)
    ensures Dist(TopEdge().pos, ClipNormal(TopEdge().normal), v) == v.y
  {
  }

  lemma BottomEdgeDist(h: nat, v: Vec4)
    ensures Dist(BottomEdge(h).pos, ClipNormal(BottomEdge(h).normal), v) == h as real - 1.0 - v.y
  {
  }

  lemma LeftEdgeDist(v: Vec4)
    ensures Dist(LeftEdge().pos, ClipNormal(LeftEdge().normal), v) == v.x
  {
  }

  lemma RightEdgeDist(w: nat, v: Vec4)
    ensures Dist(RightEdge(w).pos, ClipNormal(RightEdge(w).normal), v) == w as real - 1.0 - v.x
  {
  }

  /** The kept side of all four screen planes is the screen rectangle. */
  lemma VertexOnScreen(w: nat, h: nat, v: Vec4)
    requires Dist(TopEdge().pos, ClipNormal(TopEdge().normal), v) >= 0.0
    requires Dist(BottomEdge(h).pos, ClipNormal(BottomEdge(h).normal), v) >= 0.0
    requires Dist(LeftEdge().pos, ClipNormal(LeftEdge().normal), v) >= 0.0
    requires Dist(RightEdge(w).pos, ClipNormal(RightEdge(w).normal), v) >= 0.0
    ensures OnScreen(w, h, v)
  {
    TopEdgeDist(v);
    BottomEdgeDist(h, v);
    LeftEdgeDist(v);
    RightEdgeDist(w, v);
  }

  /** A triangle on the kept side of all four screen planes lies on the screen. */
  lemma InsideScreenEdges(w: nat, h: nat, u: Triangle)
    requires InHalfSpace(TopEdge().pos, ClipNormal(TopEdge().normal), u)
    requires InHalfSpace(BottomEdge(h).pos, ClipNormal(BottomEdge(h).normal), u)
    requires InHalfSpace(LeftEdge().pos, ClipNormal(LeftEdge().normal), u)
    requires InHalfSpace(RightEdge(w).pos, ClipNormal(RightEdge(w).normal), u)
    ensures OnScreen(w, h, u.p0) && OnScreen(w, h, u.p1) && OnScreen(w, h, u.p2)
  {
    VertexOnScreen(w, h, u.p0);
    VertexOnScreen(w, h, u.p1);
    VertexOnScreen(w, h, u.p2);
  }

  /** Every triangle that leaves four passes lies on the kept side of all four planes. */
  lemma FourPassesInside(ps: seq<Plane>, t: Triangle, u: Triangle)
    requires UnitPlanes(ps) && |ps| == 4
    requires u in ClipPlanes(ps, [t])
    ensures forall i | 0 <= i < 4 :: InHalfSpace(ps[i].pos, ClipNormal(ps[i].normal), u)
  {
    forall i | 0 <= i < 4
      ensures InHalfSpace(ps[i].pos, ClipNormal(ps[i].normal), u)
    {
      ClipPlanesInside(ps, [t], u, i);
    }
  }

  /** On the kept side of the four screen planes, a triangle lies on the screen. */
  lemma ScreenEdgesOnScreen(w: nat, h: nat, ps: seq<Plane>, u: Triangle)
    requires ps == ScreenPlanes(w, h)
    requires forall i | 0 <= i < 4 :: InHalfSpace(ps[i].pos, ClipNormal(ps[i].normal), u)
    ensures OnScreen(w, h, u.p0) && OnScreen(w, h, u.p1) && OnScreen(w, h, u.p2)
  {
    assert InHalfSpace(ps[0].pos, ClipNormal(ps[0].normal), u);
    assert InHalfSpace(ps[1].pos, ClipNormal(ps[1].normal), u);
    assert InHalfSpace(ps[2].pos, ClipNormal(ps[2].normal), u);
    assert InHalfSpace(ps[3].pos, ClipNormal(ps[3].normal), u);
    InsideScreenEdges(w, h, u);
  }
}
