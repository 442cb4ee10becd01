# Rusty-Render core in Dafny

This project models the core of a small software rasterizer written in Rust. It has three parts:

- **Homogeneous vector algebra** (`Vec4F`) — module `Vectors`, file `vectors.dfy`:
  - componentwise operators, which reset w to 1;
  - the in-place `+=` and `-=`;
  - dot and cross products, `normalize`;
  - the line/plane intersection.
- **4x4 matrices** (`Mat4`) — module `Matrices`, file `matrices.dfy`. They act on row vectors. The module covers:
  - the matrix product and its nested loop;
  - application to a vector;
  - the factory matrices (identity, rotations, translation, perspective projection, `point_at`);
  - `quick_inverse`.
- **The drawer**, split over three modules:
  - `Raster` (`raster.dfy`): the pixel grid. It defines, as pure sets of cells, what each primitive paints: Bresenham lines, spans, rectangles, the midpoint circle, scan-line triangles and the grey palette of `get_color`.
  - `Triangles` (`triangles.dfy`): the `Triangle` record and its operators, `clip_against_plane`, and the four-plane screen-edge worklist of the frame update.
  - `Drawing` (`drawing.dfy`): the `Drawer` class.

The `Drawer` class owns a `width * height` array of `u32` colours. Its methods (`draw`, `fill_line`, `fill`, `draw_line`, `draw_circle`, `fill_triangle`, …) update the array in place, loop for loop as the source does. Each method is proved against a specification function: afterwards the buffer equals `Painted(old buffer, width, cells, colour)`. Here `cells` is the primitive's cell set from `Raster`. `Painted` sets exactly the cells that fall inside the grid, and no other buffer entry changes. Lemmas beside the cell sets then state what the source promises, for example:

- a line runs from one end point to the other through neighbouring cells;
- a horizontal line is the span between its ends;
- a circle is symmetric about its centre;
- a filled triangle stays between its top and bottom rows.

Modelling conventions:

- `f32` is a mathematical `real`, and IEEE rounding is not modelled.
- `sin`, `cos`, `tan` and `sqrt` are values the caller supplies (`c`, `s`, `tanHalfFov`, `len`). Their properties are assumed only through explicit preconditions such as `c * c + s * s == 1.0`.
- `i32` arithmetic is unbounded `int`.
- A float-to-int `as i32` cast truncates toward zero and then saturates (`CastI32`). `f32::round` rounds half away from zero (`RoundHalfAway`).

## Model

| member | source | states |
|---|---|---|
| `Vectors.Add` | src/math/vector4f.rs:18-28 | the sum's w is 1 whatever the operands' w |
| `Vectors.Sub` | src/math/vector4f.rs:30-40 | the difference's w is 1 whatever the operands' w |
| `Vectors.MulComponents` | src/math/vector4f.rs:42-52 | the componentwise product's w is 1 |
| `Vectors.Scale` | src/math/vector4f.rs:54-64 | the scaled vector's w is 1 |
| `Vectors.DivComponents` | src/math/vector4f.rs:66-76 | the componentwise quotient's w is 1 |
| `Vectors.DivScalar` | src/math/vector4f.rs:78-88 | the quotient by a scalar has w 1 |
| `Vectors.AddAssign` | src/math/vector4f.rs:90-96 | `+=` keeps the w of `self` |
| `Vectors.SubAssign` | src/math/vector4f.rs:98-104 | `-=` keeps the w of `self` |
| `Vectors.Cross` | src/math/vector4f.rs:126-133 | the cross product has w 1 |
| `Vectors.Normalize` | src/math/vector4f.rs:117-120 | the result has w 1 and, scaled back by the length, gives the input's x, y, z; `self` is not changed |
| `Vectors.IntersectsPlane` | src/math/vector4f.rs:135-145 | with a unit normal and a line not parallel to the plane, the point lies on the plane (n·r = n·plane_p), has w 1, and is `start` (or `end`) when that end is already on the plane |
| `Vectors.IntersectionOnPlane` | src/math/vector4f.rs:137-144 | the point at parameter t = (-pd - ad)/(bd - ad) on the line satisfies the plane equation |
| `Vectors.ParamAtEnd` | src/math/vector4f.rs:140 | the parameter is 1 when `end` lies on the plane |
| `Vectors.OnLine` | src/math/vector4f.rs:141-144 | n·(start + (end - start)·t) = n·start + t·(n·end - n·start) |
| `Vectors.AddDefault` | src/math/vector4f.rs:12-16 | the default vector (0, 0, 0, 1) is neutral for `+` up to w and orthogonal to every vector |
| `Vectors.SubUndoesAdd` | src/math/vector4f.rs:18-40 | (a + b) - b is a with w reset to 1 |
| `Vectors.AddCommutes` | src/math/vector4f.rs:18-28 | `+` is commutative, whatever the operands' w |
| `Vectors.DivScalarUndoesScale` | src/math/vector4f.rs:54-88 | dividing by k undoes scaling by k (k ≠ 0), w reset to 1 |
| `Vectors.DivUndoesMulComponents` | src/math/vector4f.rs:42-76 | componentwise division undoes the componentwise product |
| `Vectors.AddAssignAgreesWithAdd` | src/math/vector4f.rs:90-96 | `self += rhs` equals `self + rhs` in x, y, z and keeps the old w |
| `Vectors.SubAssignUndoesAddAssign` | src/math/vector4f.rs:98-104 | `-=` undoes `+=` exactly, w included |
| `Vectors.DotSymmetricIgnoresW` | src/math/vector4f.rs:122-124 | the dot product is symmetric and does not depend on either w |
| `Vectors.CrossOrthogonal` | src/math/vector4f.rs:126-133 | the cross product is orthogonal to both operands |
| `Vectors.CrossAntiCommutes` | src/math/vector4f.rs:126-133 | a × b = -(b × a) in x, y, z |
| `Vectors.NormalizeUnit` | src/math/vector4f.rs:113-120 | a unit vector has length 1, and normalizing it only resets w |
| `Vectors.NormalizeIsUnit` | src/math/vector4f.rs:113-120 | dividing x, y, z by the true length (non-zero, with length² = x² + y² + z²) gives a vector of length 1 |
| `Vectors.Default` | src/math/vector4f.rs:12-16 | the vector (0, 0, 0, 1); `AddDefault` states that it is neutral for `+` up to w and orthogonal to every vector |
| `Vectors.Dot` | src/math/vector4f.rs:122-124 | x·x' + y·y' + z·z'; `DotSymmetricIgnoresW` states that it is symmetric and ignores w, `CrossOrthogonal` that the cross product is orthogonal to both operands |
| `Matrices.MulLoop` | src/math/matrix4.rs:124-136 | the nested i/j loop over a zeroed array computes the product whose entry [j][i] is row j of the left factor against column i of the right |
| `Matrices.Mul` | src/math/matrix4.rs:124-136 | entry [j][i] is row j of the left factor against column i of the right; `MulLoop` computes it, `MulApply` states that it composes applications, `IdentityNeutral` that the identity is its unit |
| `Matrices.Apply` | src/math/matrix4.rs:138-149 | the row vector (x, y, z, w) times the matrix, all four coordinates; `MulApply` and `IdentityApply` state its properties |
| `Matrices.Identity` | src/math/matrix4.rs:19-28 | ones on the diagonal; `IdentityApply` and `IdentityNeutral` state that it maps every vector to itself and is a unit of the product |
| `Matrices.RotateX` | src/math/matrix4.rs:30-40 | the rotation about x for cos c and sin s; `RotationsFixAxis` and `RotateXKeepsLength` state that it keeps x and w and the length |
| `Matrices.RotateY` | src/math/matrix4.rs:42-52 | the rotation about y; `RotationsFixAxis` and `RotateYKeepsLength` state that it keeps y and w and the length |
| `Matrices.RotateZ` | src/math/matrix4.rs:54-64 | the rotation about z; `RotationsFixAxis` and `RotateZKeepsLength` state that it keeps z and w and the length |
| `Matrices.Translate` | src/math/matrix4.rs:66-77 | row 3 holds the offset; `TranslateMovesPoint` and `QuickInverseOfTranslate` state that it moves points by the offset and is undone by the opposite offset |
| `Matrices.Project` | src/math/matrix4.rs:79-91 | the perspective matrix for 1/tan(fov/2), aspect, near and far; `ProjectWIsDepth`, `ProjectNearPlane` and `ProjectFarPlane` state where depths go |
| `Matrices.PointAt` | src/math/matrix4.rs:93-108 | row 0 is the cross product of rows 1 and 2, row 3 is the position, and column 3 is all 1 |
| `Matrices.QuickInverse` | src/math/matrix4.rs:110-121 | the 3x3 block is the transpose of the input's block, and column 3 is (0, 0, 0, 1) |
| `Matrices.IdentityApply` | src/math/matrix4.rs:19-28 | the identity maps every vector to itself, w included |
| `Matrices.RotationsFixAxis` | src/math/matrix4.rs:30-64 | each rotation leaves its own axis coordinate and w unchanged |
| `Matrices.TranslateMovesPoint` | src/math/matrix4.rs:66-77 | translate(x, y, z) moves a point with w 1 by (x, y, z) and keeps w 1 |
| `Matrices.ProjectWIsDepth` | src/math/matrix4.rs:79-91 | the projected vector's w is the input z |
| `Matrices.MulApply` | src/math/matrix4.rs:124-149 | applying A·B to v is applying A, then B |
| `Matrices.IdentityNeutral` | src/math/matrix4.rs:19-28 | the identity is a left and a right unit of the product |
| `Matrices.WorldTransformOrder` | src/drawer.rs:121-124 | the world matrix rot_z·rot_x·trans rotates about z, then about x, then translates |
| `Matrices.RotateXKeepsLength` | src/math/matrix4.rs:30-40 | with c² + s² = 1, the rotation about x keeps the length of x, y, z |
| `Matrices.RotateYKeepsLength` | src/math/matrix4.rs:42-52 | with c² + s² = 1, the rotation about y keeps the length of x, y, z |
| `Matrices.RotateZKeepsLength` | src/math/matrix4.rs:54-64 | with c² + s² = 1, the rotation about z keeps the length of x, y, z |
| `Matrices.ProjectNearPlane` | src/math/matrix4.rs:79-91 | a point at depth `near` gets depth 0 |
| `Matrices.ProjectFarPlane` | src/math/matrix4.rs:79-91 | a point at depth `far` gets depth `far`, so 1 after the divide by w = far |
| `Matrices.QuickInverseIgnoresColumn3` | src/math/matrix4.rs:110-121 | the result does not depend on the input's column 3 |
| `Matrices.QuickInverseOfTranslate` | src/math/matrix4.rs:110-121 | the quick inverse of translate(x, y, z) is translate(-x, -y, -z) |
| `Matrices.QuickInverseUndoesTranslate` | src/math/matrix4.rs:66-121 | the quick inverse of a translation takes every translated point back |
| `Matrices.QuickInverseRightInverse` | src/math/matrix4.rs:110-121 | for a rigid motion (orthonormal 3x3 block, column 3 = (0, 0, 0, 1)), m·quick_inverse(m) is the identity |
| `Matrices.QuickInverseUndoesRigid` | src/math/matrix4.rs:110-121 | for a rigid motion, applying m and then its quick inverse gives back every vector |
| `Matrices.ViewMatrixFromPointAt` | src/math/matrix4.rs:93-121 | the view matrix from `point_at`, whose column 3 is all 1, equals the quick inverse of the rigid camera matrix with column 3 set to (0, 0, 0, 1) |
| `Matrices.PointAtRightOrthogonal` | src/math/matrix4.rs:93-108 | the right vector of `point_at` is orthogonal to the up and forward vectors |
| `Raster.IndexOfCell` | src/drawer.rs:419-423 | for an in-grid cell, y·width + x lies in the buffer and stands for (x, y) |
| `Raster.CellOfIndex` | src/drawer.rs:103 | every index of the `width * height` buffer stands for exactly one in-grid cell |
| `Raster.PaintedInside` | src/drawer.rs:419-423 | painting an in-grid cell writes exactly buffer index y·width + x |
| `Raster.PaintedOutside` | src/drawer.rs:419-423 | painting a cell outside the grid leaves the buffer unchanged |
| `Raster.SpanCells` | src/drawer.rs:599-606 | a span paints every x between min(sx, ex) and max(sx, ex) on row ny, both ends included, nothing on any other row, and is the same for either argument order |
| `Raster.ClearScreen` | src/drawer.rs:164 | fill(0, 0, width, height, col) sets every buffer entry to col |
| `Raster.Rect` | src/drawer.rs:628-636 | every cell x1..x2 by y1..y2; `ClearScreen` and `Drawing.Drawer.Fill` state what painting it does to the buffer |
| `Raster.Span` | src/drawer.rs:599-606 | the cells of `fill_line`; `SpanCells` states exactly which they are |
| `Raster.Walk` | src/drawer.rs:493-506 | n iterations of a line loop draw n cells, one per iteration; where the last one lies is `WalkEnd`, each step is `WalkSteps` |
| `Raster.WalkEnd` | src/drawer.rs:493-529 | with the Bresenham error term in its window, after n iterations the walk is exactly du major and dv minor moves from its start, so it ends on the far end point |
| `Raster.LinePoints` | src/drawer.rs:467-531 | the cells of `draw_line` in drawing order; `LineEnds`, `LineSymmetric`, `XMajorEnds`, `YMajorEnds` and `LineConnected` state their count, ends, order and connectedness |
| `Raster.Line` | src/drawer.rs:467-531 | the set of those cells; `HorizontalLine` and `VerticalLine` state the straight cases |
| `Raster.LineEnds` | src/drawer.rs:467-531 | a line draws max(abs(dx), abs(dy)) + 1 cells, and both end points are among them |
| `Raster.LineSymmetric` | src/drawer.rs:484-514 | a line drawn from either end draws the same cells in the same order |
| `Raster.XMajorEnds` | src/drawer.rs:484-506 | when abs(dy) <= abs(dx), the line starts at the end with the smaller x and ends at the other |
| `Raster.YMajorEnds` | src/drawer.rs:507-530 | when abs(dx) < abs(dy), the line starts at the end with the smaller y and ends at the other |
| `Raster.LineConnected` | src/drawer.rs:493-529 | consecutive cells of a line differ by exactly 1 along the major axis and by at most 1 along the other |
| `Raster.WalkSteps` | src/drawer.rs:493-506 | each loop step moves the major coordinate by +1 and the minor one by 0 or by the step direction |
| `Raster.WalkStraight` | src/drawer.rs:493-506 | with no minor difference the loop never leaves its row (or column) |
| `Raster.HorizontalLine` | src/drawer.rs:467-506 | a horizontal line paints exactly the span from min x to max x on its row |
| `Raster.VerticalLine` | src/drawer.rs:507-530 | a vertical line paints exactly the column from min y to max y |
| `Raster.OctantsSymmetric` | src/drawer.rs:434-441 | the eight cells of one circle iteration are closed under mirroring about both axes and the diagonal |
| `Raster.CircleCells` | src/drawer.rs:433-449 | the cells the midpoint loop paints from the state (x, y, p) on; `CircleCellsSymmetric` and `CircleCellsBounded` state their symmetry and bounds |
| `Raster.Circle` | src/drawer.rs:425-450 | the cells of `draw_circle`, nothing for radius 0; `CircleSymmetric`, `CircleBounded` and `CircleAxes` state their properties |
| `Raster.CircleSymmetric` | src/drawer.rs:425-450 | a drawn circle is symmetric about both axes and the diagonal through its centre |
| `Raster.CircleBounded` | src/drawer.rs:425-450 | every cell of a circle lies within r of the centre in x and in y |
| `Raster.CircleAxes` | src/drawer.rs:425-450 | a positive radius reaches the four axis points at distance r; radius 0 or less paints nothing |
| `Raster.SortByY` | src/drawer.rs:570-579 | the sorted points are a permutation of the three inputs in non-decreasing y, and every two points with equal y keep their input order (the sort is stable) |
| `Raster.RoundHalfAway` | src/drawer.rs:590 | `round` is within 1/2 of its argument, with halfway cases going away from zero |
| `Raster.TruncTowardZero` | src/drawer.rs:547-552 | the integer part of a float, dropping the fraction towards zero |
| `Raster.SaturateI32` | src/drawer.rs:547-552 | a float-to-`i32` cast clamps to the `i32` range and keeps integers inside it |
| `Raster.CastI32` | src/drawer.rs:545-555 | `as i32` on a float: truncate toward zero, then saturate; `CastsOfInteger` states that it keeps integers |
| `Raster.RoundI32` | src/drawer.rs:590 | `round() as i32`: round half away from zero, then saturate; `CastsOfInteger` states that it keeps integers |
| `Raster.Slope` | src/drawer.rs:581-584 | the inverse slope (x1 - x0)/(y1 - y0), or 0 on a flat edge; `EdgeThroughEnds` states that the edge through it hits both ends |
| `Raster.EdgeX` | src/drawer.rs:588-594 | the x of an edge at row y; `EdgeThroughEnds` states that it passes through both end points |
| `Raster.CastsOfInteger` | src/drawer.rs:545-555 | an integer-valued float rounds and casts to that integer |
| `Raster.EdgeThroughEnds` | src/drawer.rs:582-594 | the edge x(y) = x0 + slope·(y - y0) passes through both of its end points |
| `Raster.RowsWithin` | src/drawer.rs:587-596 | one sweep loop only paints rows lo..hi |
| `Raster.RowsReach` | src/drawer.rs:587-596 | each row lo..hi of a sweep gets both of its edge cells |
| `Raster.Rows` | src/drawer.rs:587-596 | the spans of one sweep loop over rows lo..hi; `RowsWithin` and `RowsReach` state which rows and cells they cover |
| `Raster.TriangleCells` | src/drawer.rs:557-597 | the cells of `fill_triangle`: sort by y, then the two sweeps; `TriangleRowsWithin`, `TriangleRowsCovered`, `TriangleVertices` and `FlatTriangle` state their properties |
| `Raster.SortedTriangleCells` | src/drawer.rs:581-596 | the two sweeps over already sorted vertices |
| `Raster.TriangleRowsWithin` | src/drawer.rs:557-597 | a filled triangle only paints rows between its lowest and highest vertex |
| `Raster.TriangleRowsCovered` | src/drawer.rs:587-596 | every row from the top to the bottom vertex gets the cell on the long edge |
| `Raster.TriangleVertices` | src/drawer.rs:557-597 | the top and middle vertices are painted, and the bottom one too unless the triangle is flat |
| `Raster.FlatTriangle` | src/drawer.rs:587-596 | on a flat triangle (0,0), (1,0), (5,0) only the span between the first two sorted vertices is painted |
| `Raster.PaletteGreys` | src/drawer.rs:286-301 | the 13 palette entries strictly increase and each has equal R, G and B bytes |
| `Raster.ColorOfIndex` | src/drawer.rs:286-301 | palette entry i for 0 <= i <= 12, black for every other index |
| `Raster.GetColor` | src/drawer.rs:283-304 | the palette entry of `(13.0 * lum) as i32`; `GetColorBand`, `GetColorMonotone`, `GetColorLit` and `GetColorFullIntensityIsBlack` state what it gives |
| `Raster.GetColorBand` | src/drawer.rs:283-304 | an intensity in [0, 1) picks palette entry floor(13·lum) |
| `Raster.GetColorMonotone` | src/drawer.rs:283-304 | below 1, a brighter intensity never gives a darker grey |
| `Raster.GetColorLit` | src/drawer.rs:142-144 | the clamped intensity the frame update passes (at least 0.1) never maps to black below 1 |
| `Raster.GetColorFullIntensityIsBlack` | src/drawer.rs:284-300 | intensity 1 (or more) gives index 13 or more and so black |
| `Raster.GetColorClampedIntended` | src/drawer.rs:283-304 | the lookup with the index clamped to 12 agrees with `get_color` below 1, is white from 12/13 on, and is monotone |
| `Triangles.AverageZ` | src/drawer.rs:26-28 | the mean depth lies between the smallest and the largest vertex z |
| `Triangles.DefaultTriangle` | src/drawer.rs:75-82 | three default vertices (0, 0, 0, 1) and colour 0 |
| `Triangles.MulTriangles` | src/drawer.rs:31-40 | vertex by vertex componentwise product, keeping the left colour; `MulTrianglesOnes` states its unit |
| `Triangles.Transform` | src/drawer.rs:42-51 | every vertex times the matrix, colour kept; `TransformCompose` and `TransformIdentity` state its properties |
| `Triangles.DivTriangle` | src/drawer.rs:53-62 | every vertex divided by k, colour kept; `DivTriangleUndone` states its inverse |
| `Triangles.AddTriangle` | src/drawer.rs:64-73 | every vertex moved by v, colour kept; `AddTriangleTwice` states that two moves compose |
| `Triangles.MulTrianglesOnes` | src/drawer.rs:31-40 | multiplying by a triangle of all-ones vertices keeps the left triangle's colour and the x, y, z of each vertex |
| `Triangles.TransformCompose` | src/drawer.rs:42-51 | transforming by a and then by b is transforming by a·b, colour kept |
| `Triangles.TransformIdentity` | src/drawer.rs:42-51 | transforming by the identity keeps the triangle |
| `Triangles.DivTriangleUndone` | src/drawer.rs:53-62 | dividing every vertex by k ≠ 0 is undone by scaling by k, in x, y, z, colour kept |
| `Triangles.AddTriangleTwice` | src/drawer.rs:64-73 | two translations of a triangle make one by the sum |
| `Triangles.PointSides` | src/drawer.rs:326-354 | inside points have signed distance >= 0, outside points < 0 |
| `Triangles.Dist` | src/drawer.rs:315-319 | n·p - n·plane_p; `PointSides` and `CrossingOnPlane` state how the clip uses its sign |
| `Triangles.InsidePoints` | src/drawer.rs:321-354 | the vertices with distance >= 0, in vertex order; `Classify` computes them, `PointSides` and `ClipPartition` state their properties |
| `Triangles.OutsidePoints` | src/drawer.rs:321-354 | the other vertices, in vertex order; `Classify` computes them, `PointSides` and `ClipPartition` state their properties |
| `Triangles.ClipNormal` | src/drawer.rs:312 | the plane normal after the in-place `normalize`; `ClipNormalIdempotent` states that it is idempotent on unit normals |
| `Triangles.Crossing` | src/drawer.rs:370-406 | `intersects_plane` from an inside to an outside vertex; `CrossingOnPlane` and `CrossingOnEdge` state that it is on the plane and on the edge |
| `Triangles.ClipTriangle` | src/drawer.rs:306-412 | the result of `clip_against_plane`; `ClipCases`, `ClipVertices`, `ClipKeepsInside` and `ClipKeepsHalfSpace` state its shape, vertices and side |
| `Triangles.ClipPartition` | src/drawer.rs:332-354 | inside and outside counts always sum to 3, so the final empty return is unreachable |
| `Triangles.ClipCases` | src/drawer.rs:356-411 | 0 inside points give no triangle; 3 give the input unchanged; 1 gives one triangle starting at the inside point; 2 give two triangles, (in0, in1, ·) and (in1, ·, ·), whose second starts with in1 followed by the first's third vertex; never more than two; every output has the input's colour |
| `Triangles.ClipVertices` | src/drawer.rs:366-408 | with one inside point the result is (in0, crossing in0–out0, crossing in0–out1); with two it is (in0, in1, crossing in0–out0) and (in1, crossing in0–out0, crossing in1–out0); every new vertex lies on the plane |
| `Triangles.ClipNormalIdempotent` | src/drawer.rs:189-199 | normalizing a unit normal again gives the same normal, so the normal a clip writes back is valid for the next one |
| `Triangles.ClipDependsOnClipNormal` | src/drawer.rs:189-199 | two unit normals that normalize alike clip alike, so passing the written-back normal to the next clip changes nothing |
| `Triangles.CrossingOnPlane` | src/drawer.rs:370-406 | every computed crossing lies on the clipping plane |
| `Triangles.CrossingOnEdge` | src/drawer.rs:370-406 | a crossing is the point at some t in [0, 1] on the edge from the inside to the outside vertex |
| `Triangles.ClipKeepsInside` | src/drawer.rs:306-412 | every output triangle lies on the kept side of the plane |
| `Triangles.CrossingKeepsHalfSpace` | src/drawer.rs:370-406 | a crossing of two points on the kept side of another plane is on that side too |
| `Triangles.ClipKeepsHalfSpace` | src/drawer.rs:306-412 | clipping keeps a triangle that lies on the kept side of an earlier plane on that side |
| `Triangles.ClipAgainstPlane` | src/drawer.rs:306-412 | the method returns exactly the clip result and writes the normalized normal back to the caller's plane normal |
| `Triangles.Classify` | src/drawer.rs:321-354 | the running counters fill the inside and outside arrays with the inside and outside points, in vertex order |
| `Triangles.ScreenPlanesUnit` | src/drawer.rs:166-183 | there are four screen planes and all their normals are unit vectors |
| `Triangles.ScreenPlanes` | src/drawer.rs:166-183 | the top, bottom, left and right edge planes; `ScreenPlanesUnit` and the `…EdgeDist` lemmas state their normals and distances |
| `Triangles.ClipAll` | src/drawer.rs:190-199 | one pass: the clip results of the list, concatenated in order; `ClipAllGrowth`, `ClipAllInside` and `ClipAllKeeps` state its properties |
| `Triangles.ClipPlanes` | src/drawer.rs:189-200 | one pass per plane, in order; `ClipPlanesGrowth`, `ClipPlanesKeeps` and `ClipPlanesInside` state its properties |
| `Triangles.ClipToScreen` | src/drawer.rs:185-200 | the worklist for one triangle starts as a singleton and equals its clip through the four screen planes |
| `Triangles.ScreenPassesFacts` | src/drawer.rs:185-200 | the worklist ends with at most 16 triangles, all of the original colour, all on screen |
| `Triangles.ClipThroughPlanes` | src/drawer.rs:189-200 | the plane loop makes one pass per plane, in order |
| `Triangles.ClipPass` | src/drawer.rs:190-199 | draining the list through the clip, handing each clip the normal the previous one wrote back, gives the in-order concatenation of the clip results |
| `Triangles.ClipAllGrowth` | src/drawer.rs:190-199 | one pass at most doubles the list and keeps the colour |
| `Triangles.ClipAllInside` | src/drawer.rs:190-199 | after a pass every triangle is on the kept side of its plane |
| `Triangles.ClipAllKeeps` | src/drawer.rs:190-199 | a pass keeps triangles on the kept side of any earlier plane |
| `Triangles.ClipPlanesGrowth` | src/drawer.rs:189-200 | passes over k planes leave at most 2^k times as many triangles, colour kept |
| `Triangles.ClipPlanesKeeps` | src/drawer.rs:189-200 | further passes keep triangles on the kept side of an earlier plane |
| `Triangles.ClipPlanesInside` | src/drawer.rs:189-200 | after passes over the planes every triangle is on the kept side of each of them |
| `Triangles.FourPassesCount` | src/drawer.rs:185-200 | four passes leave at most 16 triangles of the original colour |
| `Triangles.TopEdgeDist` | src/drawer.rs:167-170 | the distance from the top plane is y |
| `Triangles.BottomEdgeDist` | src/drawer.rs:171-174 | the distance from the bottom plane is height - 1 - y |
| `Triangles.LeftEdgeDist` | src/drawer.rs:175-178 | the distance from the left plane is x |
| `Triangles.RightEdgeDist` | src/drawer.rs:179-182 | the distance from the right plane is width - 1 - x |
| `Triangles.VertexOnScreen` | src/drawer.rs:166-183 | a point on the kept side of all four screen planes lies in [0, width - 1] × [0, height - 1] |
| `Triangles.InsideScreenEdges` | src/drawer.rs:166-183 | a triangle on the kept side of all four screen planes has all its vertices on screen |
| `Triangles.FourPassesInside` | src/drawer.rs:185-200 | every triangle that leaves four passes is on the kept side of all four planes |
| `Triangles.ScreenEdgesOnScreen` | src/drawer.rs:166-183 | on the kept side of the four screen planes a triangle lies on the screen |
| `Drawing.ScreenVertices` | src/drawer.rs:545-555 | the vertices cast to cells with `as i32` always lie in the `i32` range |
| `Drawing.PaintAll` | src/drawer.rs:202-205 | filling a list of triangles keeps the buffer's length; cell by cell it is `PaintAllUncovered` and `PaintAllLastCover` |
| `Drawing.PaintAllUncovered` | src/drawer.rs:202-205 | a cell that no triangle of the list covers keeps its old colour |
| `Drawing.PaintAllLastCover` | src/drawer.rs:202-205 | a covered cell ends with the colour of the last triangle in the list that covers it |
| `Drawing.PaintAllOneColour` | src/drawer.rs:202-205 | filling triangles of one colour paints the union of their cells |
| `Drawing.SquareSides` | src/drawer.rs:414-417 | a square's outline is its four sides and the diagonal from (x2, y2) to (x1, y1) |
| `Drawing.Outline` | src/drawer.rs:452-465 | the three lines of `draw_triangle`, each edge from one vertex to the next |
| `Drawing.SquareCells` | src/drawer.rs:414-417 | the outlines of the two triangles of `draw_square`; `SquareSides` states that they are four sides and a diagonal |
| `Drawing.FilledCells` | src/drawer.rs:545-555 | the cells of `fill_triangle` on the vertices cast with `as i32`; `FilledCellsOfIntegral` states the integral case |
| `Drawing.FilledCellsOfIntegral` | src/drawer.rs:545-555 | a triangle whose vertices sit on integer cells fills (and outlines) the triangle of those cells |
| `Drawing.Drawer.constructor` | src/drawer.rs:99-110 | the new drawer has the given size and an all-black buffer of width · height cells |
| `Drawing.Drawer.Draw` | src/drawer.rs:419-423 | the buffer afterwards is the old one with cell (x, y) set to col if it is inside the grid, and nothing else changed |
| `Drawing.Drawer.FillLine` | src/drawer.rs:599-606 | the loop paints exactly the span between sx and ex on row ny |
| `Drawing.Drawer.Clip` | src/drawer.rs:612-626 | the clamped point lies in a non-empty grid, and an in-grid point is kept as it is |
| `Drawing.Drawer.Fill` | src/drawer.rs:628-636 | the nested loops paint exactly the cells x1..x2 by y1..y2 that lie inside the grid; the discarded clip results change nothing |
| `Drawing.Drawer.FillColumn` | src/drawer.rs:632-634 | the inner loop of `fill` paints column x from y1 to y2 |
| `Drawing.Drawer.ClearFrame` | src/drawer.rs:164 | the frame update's fill makes the whole buffer black |
| `Drawing.Drawer.DrawLine` | src/drawer.rs:467-531 | the buffer afterwards is the old one with the cells of the line set to col |
| `Drawing.Drawer.WalkXMajor` | src/drawer.rs:493-506 | the x-major loop paints the cells of its walk |
| `Drawing.Drawer.WalkYMajor` | src/drawer.rs:516-529 | the y-major loop paints the cells of its walk |
| `Drawing.Drawer.DrawXStep` | src/drawer.rs:494-505 | one x-major iteration paints the first cell of the remaining walk |
| `Drawing.Drawer.DrawYStep` | src/drawer.rs:517-528 | one y-major iteration paints the first cell of the remaining walk |
| `Drawing.Drawer.WalkXStep` | src/drawer.rs:494-505 | the error-term update and the y step of one x-major iteration produce the next cell of the walk |
| `Drawing.Drawer.WalkYStep` | src/drawer.rs:517-528 | the error-term update and the x step of one y-major iteration produce the next cell of the walk |
| `Drawing.Drawer.DrawOctants` | src/drawer.rs:434-441 | the eight `draw` calls of one circle iteration paint the eight mirrored cells |
| `Drawing.Drawer.DrawCircle` | src/drawer.rs:425-450 | the buffer afterwards is the old one with the circle's cells set to white |
| `Drawing.Drawer.DrawTriangle` | src/drawer.rs:452-465 | the three edges are painted as lines |
| `Drawing.Drawer.DrawSquare` | src/drawer.rs:414-417 | the outlines of the two halves of the rectangle are painted |
| `Drawing.Drawer.FillTriangle` | src/drawer.rs:557-597 | the buffer afterwards is the old one with the triangle's spans set to col |
| `Drawing.Drawer.FillRows` | src/drawer.rs:587-596 | one sweep loop paints, on each row, the span between its two edges |
| `Drawing.Drawer.FillTriangleFrom` | src/drawer.rs:545-555 | the triangle, its vertices cast to cells, is filled in its own colour |
| `Drawing.Drawer.DrawTriangleFrom` | src/drawer.rs:533-543 | the triangle, its vertices cast to cells, is outlined in its own colour |
| `Drawing.Drawer.FillAll` | src/drawer.rs:202-205 | the fill loop paints each triangle of the list in order, each in its own colour |

## Left out

- The window and frame loop: `Drawer::new`'s window handle, `ready`, `handle_input` (keyboard polling) and `draw_string` (font rasterisation). These are I/O through libraries outside the model. The constructor models only the size and the zeroed buffer.
- `src/math/mesh.rs`, `src/camera.rs` and `src/math/vector3f.rs` are not part of this model. The camera's matrices are covered through `PointAt` and `QuickInverse`.
- The rest of `update`: the world and view transforms of each mesh triangle, back-face culling, lighting, the near-plane clip, `project_triangle` (perspective divide and viewport scaling), and the depth sort by `average_z`. These are floating-point orchestration. Their building blocks are modelled: `Transform`, `AverageZ`, `ClipTriangle`, `Project`, `DivTriangle`, `AddTriangle`, `GetColor`. Composing the screen-edge worklist with the fill loop for one triangle is not one method. It is split into `ClipToScreen`, `ScreenPassesFacts` and `FillAll`.
- `get`: unused, and it indexes without a bounds check.
- IEEE `f32` behaviour: rounding, infinities and NaN. Divisions by zero are excluded by preconditions: a zero component in `DivComponents`, k = 0 in `DivScalar` and `DivTriangle`, a zero length in `Normalize`, tan = 0 or far = near in `Project`, and a line parallel to the plane in `IntersectsPlane`.
- `i32` overflow of the integer loops (for example `y * width + x` or `2 * dy1`): integers are unbounded.
- The values of `sin`, `cos`, `tan` and `sqrt`: callers supply them.
- `Vectors.Normalize`: states the result only through its length parameter; that the parameter is the square root is the separate predicate `IsLengthOf`.
- `Vectors.IntersectsPlane`: requires a unit normal, as every caller in the source passes one. It does not return the normalized normal that the source writes back through `plane_n`. With a unit normal that value is the same normal with w reset to 1 (`NormalizeUnit`). `Triangles.ClipAgainstPlane` does return it, and `Triangles.ClipPass` hands it to the next clip.
- `Triangles.ClipAgainstPlane`: requires a unit plane normal, as above. The in-place `normalize` of the source's `dist` closure has no effect on the vertices and is omitted.
- `Vectors.AddAssign`: modelled as a function returning the updated value instead of a mutation through `&mut self`.
- `Matrices.MulLoop`: the product is not proved associative. `WorldTransformOrder` instead states the order in which the three factors of the world matrix apply.
- `Drawing.Drawer.Draw`: its contract is stated through `Painted`. The index form, "exactly buffer[y·width + x] changes, and only when in the grid", is `Raster.PaintedInside` with `Raster.PaintedOutside`.

## Findings

| source | as written | input that shows it | evidently intended | confidence | as-written member | corrected member |
|---|---|---|---|---|---|---|
| src/drawer.rs:284-300 | `(13.0 * lum) as i32` is 13 at full intensity, which falls to the `_ => 0x000000` arm, so a fully lit face is drawn black | `lum = 1.0` (a face whose normal points straight at the light) | the brightest grey, 0xffffff, for every intensity from 12/13 up to 1 | medium, not executed | `Raster.GetColorFullIntensityIsBlack` | `Raster.GetColorClampedIntended` |
