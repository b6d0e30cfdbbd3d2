# tinyrenderer_notes in Dafny

A model of the core of a tutorial CPU triangle rasterizer, with proofs about it. The model covers:

- integer Bresenham line drawing (`line5`);
- the vector types of `geometry.h` and the `Matrix` class of `geometry.cpp`: shape-checked add, subtract and multiply, transpose, cofactor matrix, first-row determinant, adjugate inverse, identity and the homogeneous builders, and the matrix times `Vec4f` product;
- the camera and screen transforms: `viewport`, `projection`, `lookat`, `v2m` and `m2v`;
- the three successive triangle fills:
  - the flat fill of `02triangles`: an integer box and a barycentric test with a tolerance;
  - the z-buffer fill of `03zbuffer`: cross-product weights with a degeneracy sentinel, where the larger depth wins, plus its textured variant;
  - the perspective-correct textured fill of `05movingCamera`: a 1/w interpolation, where the smaller depth wins;
- the Gouraud shader of `06gauraudShading` and its per-face driver.

All arithmetic is over `real`, not IEEE `float`. Pixel coordinates and buffer indices are `int`. Colors are opaque values that are only compared.

Each file follows the form of the code it models:

- **Matrix operations.** The C++ builds `result.m` in nested loops, so each operation is a method with those loops. Each method is proved equal to a specification function (`Sum`, `Product`, `Transposed`, `Minor`, `Det`, `Adjugate`, `Inverse`). The algebra (round trips, identity laws, associativity, the 2 x 2 and 4 x 4 inverses, what the builders do to a point) is proved about those functions.
- **Triangle fills.** These walk the box in two nested loops and write the depth buffer and the image in place. The model does the same on two arrays. One method, `Raster.DepthWalk`, is shared by both depth-tested fills, with the per-pixel shading passed in as a function. It is proved to leave exactly `DepthAfter` / `ImageAfter`. The rasterizer's rules (only boxed pixels change, depth and color change together, depth is monotone, a second run changes nothing, every interior pixel is drawn) are lemmas about those two functions.
- **Stateful objects.** `lookat` updates the rasterizer's `ModelView` field, and `GouraudShader::vertex` updates the shader's varying. So `Rasterizer` and `GouraudShader` are classes whose methods state the whole new state.
- **Copied code.** The `Matrix` core of `04Prospective/geometry.cpp` (lines 1-122) is the same code as `06gauraudShading/geometry.cpp`, so one model covers both. The same holds for `viewport` and `lookat` in `05movingCamera/main.cpp` (lines 111-138) and `06gauraudShading/rasterizer.cpp` (lines 4-31), and for `line5` in `01line` and `02triangles`.

Modules (one file each): `IntArith` (arith.dfy), `Vectors`, `Matrices`, `Transforms`, `Line`, `Raster` (pieces shared by the fills), `FlatTriangle`, `DepthTriangle`, `PerspectiveTriangle`, `Gouraud`.

## Model

| member | source | states |
|---|---|---|
| Vectors.NewVec | 06gauraudShading/geometry.h:10 | the `vec<DIM,T>` default constructor yields DIM components, all zero |
| Vectors.With | 06gauraudShading/geometry.h:49-51 | assigning through `operator[]` changes exactly the indexed component |
| Vectors.CaretIsCross | 06gauraudShading/geometry.h:59-65 | `^` and the member `cross` compute the same vector |
| Vectors.CrossAntiCommutative | 06gauraudShading/geometry.h:44 | a ^ b = -(b ^ a) |
| Vectors.CrossOrthogonal | 06gauraudShading/geometry.h:44-48 | a ^ b is orthogonal to both a and b under the dot `*` |
| Vectors.DotCommutative | 06gauraudShading/geometry.h:48 | the dot product is symmetric |
| Vectors.DotSelfNonNegative | 06gauraudShading/geometry.h:48-52 | v * v is the quantity under norm's square root, and it is never negative |
| Vectors.PlusMinusCancel2 | 06gauraudShading/geometry.h:27-28 | for Vec2, (a + b) - b = a |
| Vectors.PlusMinusCancel3 | 06gauraudShading/geometry.h:45-46 | for Vec3, (a + b) - b = a |
| Vectors.Vec3f.Normalize | 06gauraudShading/geometry.h:53 | `normalize(l)` with the norm given; NormalizedLength shows the result has length l and stays parallel to the vector |
| Vectors.NormalizedLength | 06gauraudShading/geometry.h:52-53 | normalize(l) of a vector with non-zero norm has squared length l * l and stays parallel to the original (zero cross product) |
| Matrices.Zero | 06gauraudShading/geometry.cpp:6 | `Matrix(rows, cols)` is rows x cols with every entry 0 |
| Matrices.FromRows | 06gauraudShading/geometry.cpp:8 | `Matrix(values)`: the row count is the number of rows given, the column count is the length of the first row, and the entries are the rows as given; a first row must exist, since the source reads `values[0]` |
| Matrices.Add | 06gauraudShading/geometry.cpp:13-20 | returns the `invalid_argument` error exactly when the shapes differ; otherwise the entrywise sum |
| Matrices.Subtract | 06gauraudShading/geometry.cpp:22-29 | returns the `invalid_argument` error exactly when the shapes differ; otherwise the entrywise difference |
| Matrices.SumThenDifference | 06gauraudShading/geometry.cpp:13-29 | subtracting b undoes adding b |
| Matrices.Multiply | 06gauraudShading/geometry.cpp:31-39 | returns the error exactly when cols != other.rows; otherwise a rows x other.cols matrix whose entry (i, j) is the sum over k of a[i][k] b[k][j] |
| Matrices.Scale | 06gauraudShading/geometry.cpp:41-47 | scalar `*` multiplies every entry and keeps the shape |
| Matrices.ScaledRoundTrip | 06gauraudShading/geometry.cpp:41-47 | scaling by s and then by 1/s gives the matrix back |
| Matrices.Transpose | 06gauraudShading/geometry.cpp:52-58 | the result is cols x rows with result[j][i] = m[i][j] |
| Matrices.TransposeInvolution | 06gauraudShading/geometry.cpp:52-58 | transposing twice gives back the original |
| Matrices.Identity | 06gauraudShading/geometry.cpp:101-114 | `identity(n)` as a value: BuildIdentity computes it, IdentityLeft and IdentityRight make it the unit of the product, ApplyIdentity makes it fix every Vec4f, DetIdentity gives it determinant 1, and MinorOfIdentity shows its diagonal minors are identities |
| Matrices.BuildIdentity | 06gauraudShading/geometry.cpp:101-114 | identity(n) is n x n with 1 on the diagonal and 0 elsewhere |
| Matrices.IdentityLeft | 06gauraudShading/geometry.cpp:31-39 | identity · M = M |
| Matrices.IdentityRight | 06gauraudShading/geometry.cpp:31-39 | M · identity = M |
| Matrices.RowColIdentityLeft | 06gauraudShading/geometry.cpp:36-37 | each partial sum of the k loop for identity · M picks up M[i][j] exactly once |
| Matrices.RowColIdentityRight | 06gauraudShading/geometry.cpp:36-37 | each partial sum of the k loop for M · identity picks up M[i][j] exactly once |
| Matrices.GetCofactorMatrix | 06gauraudShading/geometry.cpp:72-84 | removes exactly row p and column q and keeps the remaining entries in order, giving (rows-1) x (cols-1); the rows are wrapped with `Matrix(temp)` (FromRows) whenever one is left |
| Matrices.MinorOfIdentity | 06gauraudShading/geometry.cpp:72-84 | removing row i and column i of identity(n) leaves identity(n-1) |
| Matrices.Determinant | 06gauraudShading/geometry.cpp:86-89 | returns the `invalid_argument` error exactly for a non-square matrix; otherwise Det |
| Matrices.DeterminantRecursive | 06gauraudShading/geometry.cpp:60-70 | the 1 x 1 and 2 x 2 base cases and the loop compute Det, the first-row cofactor expansion with alternating signs |
| Matrices.ExpandFirstRow | 06gauraudShading/geometry.cpp:64-69 | after the loop, det is the full first-row expansion |
| Matrices.ExpansionNext | 06gauraudShading/geometry.cpp:67 | one loop iteration adds the term (±1) mat[0][i] det(cofactor(0, i)) |
| Matrices.CofactorDeterminant | 06gauraudShading/geometry.cpp:66-67 | `getCofactorMatrix(0, i).determinant()` is the determinant of the minor |
| Matrices.DetIdentity | 06gauraudShading/geometry.cpp:60-70 | det(identity(n)) = 1 for every n ≥ 1 |
| Matrices.ExpansionOfIdentity | 06gauraudShading/geometry.cpp:65-68 | in the expansion of identity(n), only the first term is non-zero |
| Matrices.MinorTwoByTwo | 06gauraudShading/geometry.cpp:72-84 | each cofactor matrix of a 2 x 2 matrix is the single entry left over |
| Matrices.SignedCofactor | 06gauraudShading/geometry.cpp:97 | the inner expression is (-1)^(i+j) det(cofactor(i, j)) |
| Matrices.BuildAdjugate | 06gauraudShading/geometry.cpp:94-97 | the nested loop leaves adj[j][i] = (-1)^(i+j) det(cofactor(i, j)); a 1 x 1 matrix gets the corrected [[1]] (see Findings) |
| Matrices.AdjugateTwoByTwo | 06gauraudShading/geometry.cpp:94-97 | the adjugate of [[p, q], [r, t]] is [[t, -q], [-r, p]] |
| Matrices.Invert | 06gauraudShading/geometry.cpp:91-99 | a non-square matrix gives the shape error; a zero determinant gives the singular error; otherwise the adjugate times 1/det |
| Matrices.InverseTwoByTwo | 06gauraudShading/geometry.cpp:91-99 | for an invertible 2 x 2 matrix, M · inverse(M) = identity |
| Matrices.TwoByTwoAlgebra | 06gauraudShading/geometry.cpp:98 | [[p, q], [r, t]] times k [[t, -q], [-r, p]] is the identity when (pt - qr) k = 1 |
| Matrices.ProductTwoByTwo | 06gauraudShading/geometry.cpp:31-39 | each entry of a 2 x 2 product, written out |
| Matrices.InverseOneByOne | 06gauraudShading/geometry.cpp:91-99 | the corrected inverse of [[x]] is [[1/x]], and it is a true inverse |
| Matrices.OneByOneInverseAsWritten | 06gauraudShading/geometry.cpp:91-99 | as written, the 1 x 1 inverse has an empty cofactor matrix and comes out as [[0]], which is no inverse |
| Matrices.AdjugateAsWrittenOneByOne | 06gauraudShading/geometry.cpp:97 | as written, the adjugate of any 1 x 1 matrix is [[0]] |
| Matrices.DetThreeByThree | 06gauraudShading/geometry.cpp:60-70 | the recursive determinant of a 3 x 3 matrix is its first-row expansion over three 2 x 2 determinants, written out |
| Matrices.DetFourByFour | 06gauraudShading/geometry.cpp:60-70 | the recursive determinant of a 4 x 4 matrix is the first-row expansion over its four 3 x 3 minors |
| Matrices.CofactorFourByFour | 06gauraudShading/geometry.cpp:97 | the cofactor (j, k) of a 4 x 4 matrix is ± the determinant of the 3 x 3 block left after removing row j and column k, with + exactly when j and k have the same parity |
| Matrices.CofactorRow | 06gauraudShading/geometry.cpp:60-70 | row i against the cofactors of row j sums to det(M) when i = j and to 0 otherwise: the expansion works along any row, and a repeated row gives 0 |
| Matrices.AdjugateColumn | 06gauraudShading/geometry.cpp:94-97 | column j of the 4 x 4 adjugate holds the cofactors of row j, because the loop writes adj[j][i] |
| Matrices.AdjugateEntry | 06gauraudShading/geometry.cpp:94-97 | row i of M against column j of its adjugate is det(M) when i = j and 0 otherwise |
| Matrices.ProductEntry | 06gauraudShading/geometry.cpp:31-39 | entry (i, j) of a 4 x 4 product is row i against column j, given entry by entry |
| Matrices.AdjugateProductEntry | 06gauraudShading/geometry.cpp:91-97 | M · adjugate(M) is det(M) on the diagonal and 0 off it, for every 4 x 4 M |
| Matrices.ProductScaledRight | 06gauraudShading/geometry.cpp:31-47 | scaling the right factor of a 4 x 4 product by k scales each entry of the product by k |
| Matrices.InverseEntry | 06gauraudShading/geometry.cpp:91-99 | for an invertible 4 x 4 M, entry (i, j) of M · inverse(M) is 1 on the diagonal and 0 off it |
| Matrices.InverseFourByFour | 06gauraudShading/geometry.cpp:91-99 | for every 4 x 4 M with det(M) ≠ 0, M · inverse(M) = identity(4) |
| Matrices.AssociativeEntry | 06gauraudShading/geometry.cpp:31-39 | entry (i, j) of (A · B) · C equals that of A · (B · C), for 4 x 4 matrices |
| Matrices.ColumnOfProduct | 06gauraudShading/geometry.cpp:31-39 | column j of B · C is B applied to column j of C |
| Matrices.ProductAssociative | 06gauraudShading/geometry.cpp:31-39 | (A · B) · C = A · (B · C) for 4 x 4 matrices |
| Matrices.InverseInvolution | 06gauraudShading/geometry.cpp:91-99 | for a 4 x 4 M with det(M) ≠ 0 whose inverse also has a non-zero determinant, inverse(inverse(M)) = M |
| Matrices.MultiplyVec | 06gauraudShading/geometry.cpp:164-175 | the loop computes the top-left 4 x 4 block times the vector, row by row |
| Matrices.RowTimesFull | 06gauraudShading/geometry.cpp:168-171 | the `sum` accumulated over j equals the row's dot product with the vector |
| Matrices.ApplyIdentity | 06gauraudShading/geometry.cpp:164-175 | identity(4) leaves every Vec4f unchanged |
| Matrices.ApplyProduct | 06gauraudShading/geometry.cpp:164-175 | (A · B) · v = A · (B · v) for 4 x 4 matrices, which is what vertex relies on when it applies `transfer` |
| Matrices.ApplyProductRow | 06gauraudShading/geometry.cpp:164-175 | row i of (A · B) · v equals row i of A · (B · v) |
| Matrices.ProductFourByFour | 06gauraudShading/geometry.cpp:31-39 | each entry of a 4 x 4 product, written out |
| Matrices.RotationX | 06gauraudShading/geometry.cpp:125-131 | `rotation_x(cos, sin)` as a value: BuildersFromIdentity shows it is identity(4) with the four entries the source assigns, and RotationXRoundTrip that it keeps x and is undone by the opposite angle |
| Matrices.RotationY | 06gauraudShading/geometry.cpp:133-139 | `rotation_y(cos, sin)` as a value: identity(4) with its four entries (BuildersFromIdentity); it keeps y and is undone by the opposite angle (RotationYRoundTrip) |
| Matrices.RotationZ | 06gauraudShading/geometry.cpp:141-148 | `rotation_z(cos, sin)` as a value: identity(4) with its four entries (BuildersFromIdentity); it keeps z and is undone by the opposite angle (RotationZRoundTrip) |
| Matrices.Zoom | 06gauraudShading/geometry.cpp:150-154 | `zoom(factor)` as a value: identity(4) with factor on the first three diagonal entries (BuildersFromIdentity); it scales a point by the factor (ZoomScalesPoint) |
| Matrices.Translation | 06gauraudShading/geometry.cpp:156-163 | `translation(v)` as a value: identity(4) with v in the last column (BuildersFromIdentity); it moves a point by v (TranslationMovesPoint) |
| Matrices.BuildersFromIdentity | 06gauraudShading/geometry.cpp:125-163 | rotation_x/y/z, zoom and translation are identity(4) with exactly the entries the source assigns |
| Matrices.TranslationMovesPoint | 06gauraudShading/geometry.cpp:156-163 | translation(v) applied to (p, 1) gives (p + v, 1) |
| Matrices.ZoomScalesPoint | 06gauraudShading/geometry.cpp:150-154 | zoom(f) applied to (p, 1) gives (f p, 1) |
| Matrices.RotationXRoundTrip | 06gauraudShading/geometry.cpp:125-131 | rotation_x keeps x; with c² + s² = 1, rotation_x(c, -s) undoes rotation_x(c, s) |
| Matrices.RotationYRoundTrip | 06gauraudShading/geometry.cpp:133-139 | rotation_y keeps y; with c² + s² = 1, rotation_y(c, -s) undoes rotation_y(c, s) |
| Matrices.RotationZRoundTrip | 06gauraudShading/geometry.cpp:141-148 | rotation_z keeps z; with c² + s² = 1, rotation_z(c, -s) undoes rotation_z(c, s) |
| Transforms.Viewport | 06gauraudShading/rasterizer.cpp:4-16 | `viewport` as a value: ViewportMapsNdc, ViewportCorners and ViewportMapsCube show that it maps the NDC cube onto [x, x+w] x [y, y+h] x [0, depth], and ViewportKeepsW that w passes through |
| Transforms.ViewportMapsNdc | 06gauraudShading/rasterizer.cpp:4-16 | an NDC point (px, py, pz, 1) goes to (x + w(px+1)/2, y + h(py+1)/2, depth(pz+1)/2, 1) |
| Transforms.ViewportCorners | 06gauraudShading/rasterizer.cpp:6-13 | NDC -1 and +1 go to x and x + w, to y and y + h, and to 0 and depth |
| Transforms.ViewportMapsCube | 05movingCamera/main.cpp:111-123 | for non-negative extents, the NDC cube [-1, 1]³ lands in [x, x+w] x [y, y+h] x [0, depth] |
| Transforms.ScreenAxisWithin | 05movingCamera/main.cpp:113-117 | one screen axis of the cube mapping stays within [x, x + w] |
| Transforms.DepthAxisWithin | 05movingCamera/main.cpp:119-120 | the depth axis of the cube mapping stays within [0, depth] |
| Transforms.ViewportKeepsW | 06gauraudShading/rasterizer.cpp:5-15 | the bottom row stays (0, 0, 0, 1), so the homogeneous w passes through |
| Transforms.Projection | 05movingCamera/main.cpp:48-59 | `projection` with tan(fov/2) given: ProjectionClip shows that clip w is -z and how x and y are scaled, and ProjectionNearFar that the near and far planes go to NDC depth -1 and +1 |
| Transforms.ProjectionClip | 05movingCamera/main.cpp:48-59 | clip w = -z_view; x is scaled by 1/(aspect tanHalfFov) and y by 1/tanHalfFov |
| Transforms.ProjectionNearFar | 05movingCamera/main.cpp:54-57 | a point on the near plane gets NDC depth -1 and one on the far plane gets +1 (clip z = ∓w) |
| Transforms.V2M | 05movingCamera/main.cpp:25-32 | `v2m`: a 4 x 1 column with w = 1, which M2VAfterV2M shows m2v undoes |
| Transforms.M2V | 05movingCamera/main.cpp:34-36 | `m2v`: the first three entries over the fourth; M2VAfterV2M shows it inverts v2m, and M2VIgnoresScale that a common non-zero factor does not change it |
| Transforms.M2VAfterV2M | 05movingCamera/main.cpp:25-36 | v2m sets w = 1 and m2v(v2m(v)) = v |
| Transforms.M2VIgnoresScale | 05movingCamera/main.cpp:34-36 | m2v divides by w, so scaling the column by any non-zero factor does not change it |
| Transforms.Rasterizer.constructor | 06gauraudShading/rasterizer.h:9-22 | a constructor of the model's own: the source declares `Rasterizer(width, height)` and calls a six-argument one, and defines neither; this one fixes the `width`, `height` and `depth` members and starts ModelView as the default zero 4 x 4 `Matrix` |
| Transforms.Rasterizer.Lookat | 06gauraudShading/rasterizer.cpp:18-31 | writes only ModelView, which becomes Minv · Tr built from the normalised camera axes and -eye |
| Transforms.LookAtMatrix | 06gauraudShading/rasterizer.cpp:22-30 | Minv · Tr as a value: LookAtLayout gives its layout, LookAtMapsEyeToOrigin shows eye goes to the origin, and LookAtMapsCenter that center lands at z = -\|eye - center\| |
| Transforms.LookAtLayout | 06gauraudShading/rasterizer.cpp:22-30 | rows 0-2 of ModelView's 3 x 3 block are the x, y, z axes, the translation column is minus each axis dotted with eye, and the bottom row is (0, 0, 0, 1) |
| Transforms.LookAtMapsEyeToOrigin | 06gauraudShading/rasterizer.cpp:22-30 | ModelView takes (eye, 1) to (0, 0, 0, 1) |
| Transforms.LookAtMapsCenter | 06gauraudShading/rasterizer.cpp:19-30 | center lands at view-space z = -\|eye - center\| |
| Transforms.CameraBasis | 06gauraudShading/rasterizer.cpp:19-21 | the normalised z, x and y axes of lookat, which CameraBasisOrthogonal shows are mutually orthogonal |
| Transforms.CameraBasisOrthogonal | 06gauraudShading/rasterizer.cpp:19-21 | the camera axes x, y, z are mutually orthogonal |
| Line.Normalize | 01line/main.cpp:83-92 | after the swaps, x0 ≤ x1 and \|y1 - y0\| ≤ x1 - x0, and plotting the two endpoints in the caller's orientation gives back the original two endpoints |
| Line.LinePixels | 01line/main.cpp:82-110 | everything line5 plots, in order; Line5 computes it, and PixelsOnePerColumn, EndpointsPlotted, MinorCoordinate, LineSymmetric and CloseToIdealLine state what it contains |
| Line.Line5 | 01line/main.cpp:82-110 | line5 hands image.set the pixel sequence LinePixels, in order |
| Line.Walk | 01line/main.cpp:93-109 | the error loop plots pixel k at (x0 + k, y0 moved Offset(k) times), in the caller's orientation |
| Line.OffsetBounds | 01line/main.cpp:95-108 | the loop invariant: error2 = 2k\|dy\| - 2dx · (y steps so far), and -dx < error2 ≤ dx |
| Line.OffsetStep | 01line/main.cpp:104-108 | one iteration adds 2\|dy\| and, when the error passes dx, moves y once and subtracts 2dx |
| Line.ErrorStep | 01line/main.cpp:104-108 | the same step, with the error after adding 2\|dy\| named as the loop holds it |
| Line.PixelsOnePerColumn | 01line/main.cpp:98-103 | exactly x1 - x0 + 1 pixels, one per major-axis position from x0 to x1, in increasing order |
| Line.OffsetRange | 01line/main.cpp:97-108 | y moves 0 times at the start and \|dy\| times at the end, and 0 or 1 times per step |
| Line.OffsetMonotone | 01line/main.cpp:104-107 | the number of y steps never decreases |
| Line.MinorCoordinate | 01line/main.cpp:97-107 | y starts at y0, ends at y1, and changes by at most one per step, always toward y1 |
| Line.EndpointsPlotted | 01line/main.cpp:82-110 | both original endpoints are plotted |
| Line.LineSymmetric | 01line/main.cpp:84-92 | line5(a, b) and line5(b, a) plot the same pixels in the same order |
| Line.CloseToIdealLine | 01line/main.cpp:93-108 | every plotted pixel lies within half a pixel of the ideal line along the minor axis |
| Raster.Trunc | 03zbuffer/main.cpp:76 | `int(r)` truncates: the floor for r ≥ 0, and always within one of r |
| Raster.Clamp01 | 03zbuffer/main.cpp:78-79 | the clamp lands in [0, 1], leaves values in [0, 1] alone, and sends values below or above to 0 or 1 |
| Raster.TexelIndex | 05movingCamera/main.cpp:103-104 | a clamped coordinate scaled by n truncates to a texel index in [0, n] |
| Raster.IdxDecode | 03zbuffer/main.cpp:107 | `x + y*width` is undone by `% width` and `/ width`, so distinct pixels own distinct cells |
| Raster.IdxInBounds | 03zbuffer/main.cpp:107 | a pixel of the image owns a cell of the width*height buffer |
| Raster.CellPixel | 03zbuffer/main.cpp:133 | every cell of the width*height buffer belongs to a pixel |
| Raster.LowestIsLeast | 03zbuffer/main.cpp:93-98 | the min fold is the least of its seed and the coordinates, and equals one of them |
| Raster.HighestIsGreatest | 03zbuffer/main.cpp:93-98 | the max fold is the greatest of its seed and the coordinates, and equals one of them |
| Raster.ClampedBox | 03zbuffer/main.cpp:90-98 | the clamped min/max box; FindClampedBox computes it, InBoxWithinClamp keeps it inside the image, and HullInBox shows it holds every image pixel that blends the corners |
| Raster.FindClampedBox | 03zbuffer/main.cpp:90-98 | the box loop leaves the clamped min/max fold, and the box lies in [0, clamp] |
| Raster.InBoxWithinClamp | 03zbuffer/main.cpp:101-102 | every pixel the box walk visits lies in [0, W-1] x [0, H-1] |
| Raster.WeightedThree | 03zbuffer/main.cpp:106 | the accumulation over i < 3 is w0 b.x + w1 b.y + w2 b.z |
| Raster.WeightedWithin | 03zbuffer/main.cpp:106 | a blend with convex weights lies between the least and the greatest blended value |
| Raster.BlendInFold | 03zbuffer/main.cpp:93-98 | a convex blend of one coordinate of the corners lies between the min fold and the max fold |
| Raster.HullInBox | 03zbuffer/main.cpp:90-102 | a pixel that is a convex blend of the corners and lies in the image is walked |
| Raster.DepthWalk | 03zbuffer/main.cpp:101-112 | the nested box loops leave exactly DepthAfter in the z-buffer and ImageAfter in the image |
| Raster.WalkStarts | 03zbuffer/main.cpp:101 | before the walk no cell counts as visited |
| Raster.PixelStep | 03zbuffer/main.cpp:103-110 | one pixel's depth test and writes give that cell its final value and touch no other cell |
| Raster.ColumnEnds | 03zbuffer/main.cpp:102 | leaving a column past the box's top skips only cells the walk never writes |
| Raster.WalkEnds | 03zbuffer/main.cpp:101 | once x passes the box, the buffers are exactly DepthAfter and ImageAfter |
| Raster.DepthMonotone | 03zbuffer/main.cpp:107-108 | depth entries never decrease when the larger depth wins, and never increase when the smaller one wins |
| Raster.ColorFollowsDepth | 03zbuffer/main.cpp:107-110 | a cell whose depth is unchanged keeps its color; one whose depth changed took the fragment's color |
| Raster.OutsideBoxUntouched | 03zbuffer/main.cpp:101-102 | pixels outside the clamped box keep their depth and color |
| Raster.DrawnWhenPasses | 03zbuffer/main.cpp:107-110 | a walked pixel whose fragment passes the strict depth test takes the fragment's depth and color |
| Raster.WalkIdempotent | 03zbuffer/main.cpp:107 | because the depth test is strict, a second identical walk changes neither buffer |
| FlatTriangle.BoundingBox | 02triangles/main.cpp:112-126 | `findBoundingBox` as a value: FindBoundingBox computes it, BoundingBoxInImage keeps it in the image, and BoundingBoxExact makes it the exact min/max for points in the image |
| FlatTriangle.FindBoundingBox | 02triangles/main.cpp:112-126 | the loop leaves the clamped min/max fold over the three points |
| FlatTriangle.BoundingBoxInImage | 02triangles/main.cpp:112-125 | both corners always lie in [0, W-1] x [0, H-1] |
| FlatTriangle.FoldsOfThree | 02triangles/main.cpp:117-123 | the folds over the three points, written out |
| FlatTriangle.BoundingBoxExact | 02triangles/main.cpp:113-123 | when the points lie in the image, the corners are the componentwise min and max of the points |
| FlatTriangle.ComputeBarycentric2D | 02triangles/main.cpp:128-136 | the edge-function weights, None for a degenerate triangle; DenominatorsEqual, BarycentricSumsToOne, BarycentricAtCorners and BarycentricReconstructs show they are the barycentric coordinates |
| FlatTriangle.DenominatorsEqual | 02triangles/main.cpp:128-136 | the three denominators are all twice the signed area, so the weights exist exactly when it is non-zero |
| FlatTriangle.BarycentricSumsToOne | 02triangles/main.cpp:128-136 | for a non-degenerate triangle the weights sum to 1 |
| FlatTriangle.BarycentricAtCorners | 02triangles/main.cpp:128-136 | the weights at v[0], v[1] and v[2] are (1,0,0), (0,1,0) and (0,0,1) |
| FlatTriangle.BarycentricReconstructs | 02triangles/main.cpp:128-136 | blending the corners with the weights gives back the point |
| FlatTriangle.InsideTriangle | 02triangles/main.cpp:139-153 | `insideTriangle`; InsideTriangleIff shows it holds iff every weight is ≥ -1e-6 |
| FlatTriangle.InsideTriangleIff | 02triangles/main.cpp:139-153 | insideTriangle holds iff every weight ≥ -1e-6 (the sum test always passes over exact arithmetic) |
| FlatTriangle.FillBox | 02triangles/main.cpp:159-165 | the nested half-open loops leave exactly Fill: cells of walked pixels that pass the test take the color, and all others are unchanged |
| FlatTriangle.FillStarts | 02triangles/main.cpp:159 | before the walk no cell counts as visited |
| FlatTriangle.FillStep | 02triangles/main.cpp:161-163 | one pixel's test and write give that cell its final value and touch no other cell |
| FlatTriangle.FillColumnEnds | 02triangles/main.cpp:160 | leaving a column skips only cells the walk never writes |
| FlatTriangle.FillEnds | 02triangles/main.cpp:159 | once x reaches the end of the box, the image is exactly Fill |
| FlatTriangle.FillAt | 02triangles/main.cpp:159-165 | pixel (x, y) takes the color iff it is in the walked box and passes the test; otherwise it keeps its color |
| FlatTriangle.FillIdempotent | 02triangles/main.cpp:157-166 | walking the same box with one flat color twice equals walking it once |
| FlatTriangle.PaintedIdempotent | 02triangles/main.cpp:157-166 | triangle writes one constant color, so running it twice equals running it once |
| FlatTriangle.TriangleAsWritten | 02triangles/main.cpp:157-166 | triangle as written: the half-open loops from min to max, painting pixels that pass insideTriangle |
| FlatTriangle.Triangle | 02triangles/main.cpp:157-166 | triangle with both loops running up to and including the max corner |
| FlatTriangle.BlendBetween | 02triangles/main.cpp:117-123 | a whole number that is a convex blend of three whole numbers lies between their min and max |
| FlatTriangle.InteriorInBox | 02triangles/main.cpp:112-125 | an image pixel inside the closed triangle lies in its clamped box |
| FlatTriangle.TriangleCoversInterior | 02triangles/main.cpp:157-166 | the inclusive walk paints every image pixel in the closed triangle |
| FlatTriangle.CornerWeights | 02triangles/main.cpp:128-136 | at corner (3, 0) of the triangle (0,0), (3,0), (0,3) the weights are (0, 1, 0) |
| FlatTriangle.CornerInside | 02triangles/main.cpp:139-153 | that corner passes insideTriangle |
| FlatTriangle.CornerBox | 02triangles/main.cpp:112-125 | in a 4 x 4 image that triangle's box is (0,0)-(3,3) |
| FlatTriangle.HalfOpenMissesCorner | 02triangles/main.cpp:159-160 | the half-open loops leave the inside corner (3, 0) unpainted, while the inclusive walk paints it |
| DepthTriangle.Barycentric | 03zbuffer/main.cpp:39-50 | `barycentric` as a value: ComputeBarycentric computes it, BarycentricSumsToOne, BarycentricAtCorners and BarycentricReconstructs show the weights are barycentric coordinates, and DegenerateRejected that the sentinel is rejected |
| DepthTriangle.ComputeBarycentric | 03zbuffer/main.cpp:39-50 | the loop filling s[1] then s[0], the cross product and the degeneracy test give Barycentric |
| DepthTriangle.CrossZIsArea | 03zbuffer/main.cpp:41-46 | u.z is twice the signed area of the screen triangle, whatever P is |
| DepthTriangle.DegenerateRejected | 03zbuffer/main.cpp:47-49 | when \|u.z\| ≤ 1e-2 the first weight is negative, so the fill rejects every pixel |
| DepthTriangle.BarycentricSumsToOne | 03zbuffer/main.cpp:47-48 | non-degenerate weights sum to 1 |
| DepthTriangle.BarycentricAtCorners | 03zbuffer/main.cpp:41-48 | P = A, B, C give (1,0,0), (0,1,0), (0,0,1) |
| DepthTriangle.BarycentricReconstructs | 03zbuffer/main.cpp:41-48 | blending the corners' x and y with the weights gives back P |
| DepthTriangle.Recombine | 03zbuffer/main.cpp:46-48 | one coordinate of the reconstruction, from the cross product's orthogonality to s[i] |
| DepthTriangle.InterpolateDepth | 03zbuffer/main.cpp:105-106 | the accumulation loop computes the depth blend of the corners |
| DepthTriangle.Triangle | 03zbuffer/main.cpp:89-113 | the z-buffer and image after triangle are the larger-wins DepthAfter / ImageAfter of its per-pixel shading over the clamped box |
| DepthTriangle.ShadeDepthWithinCorners | 03zbuffer/main.cpp:104-106 | an accepted pixel's depth lies between the least and greatest corner depth |
| DepthTriangle.InteriorInScreenBox | 03zbuffer/main.cpp:90-102 | an image pixel with non-negative weights in a non-degenerate triangle is walked |
| DepthTriangle.TriangleDrawsInterior | 03zbuffer/main.cpp:101-110 | such a pixel whose depth beats the buffer is drawn, with its depth and the color |
| DepthTriangle.TriangleWithTex | 03zbuffer/main.cpp:52-87 | the buffers after triangleWithTex are the walk of its textured shading, which samples the clamped uv |
| DepthTriangle.TexturedSameDepth | 03zbuffer/main.cpp:66-77 | the textured fill accepts the same pixels with the same depths as the flat fill |
| DepthTriangle.InitDepthBuffer | 03zbuffer/main.cpp:133-134 | every entry of a fresh width*height z-buffer is -max float |
| PerspectiveTriangle.Barycentric2D | 05movingCamera/main.cpp:39-46 | `barycentric2D`: Cramer solves the system, Barycentric2DReconstructs and Barycentric2DAtCorners show the weights are barycentric coordinates, and DegenerateRejected that the sentinel is rejected |
| PerspectiveTriangle.DegenerateRejected | 05movingCamera/main.cpp:40-41 | when \|denom\| < 1e-6 the first weight is negative, so the fill rejects the pixel |
| PerspectiveTriangle.Cramer | 05movingCamera/main.cpp:40-43 | alpha and beta solve the 2 x 2 system with C as origin |
| PerspectiveTriangle.Barycentric2DReconstructs | 05movingCamera/main.cpp:39-46 | the weights sum to 1 and blending the corners with them gives back P |
| PerspectiveTriangle.Barycentric2DAtCorners | 05movingCamera/main.cpp:39-46 | P = A, B, C give (1,0,0), (0,1,0), (0,0,1) |
| PerspectiveTriangle.PerspectiveShade | 05movingCamera/main.cpp:81-105 | one pixel's work: ScreenDepthWithin bounds its depth, VertexAttributeReproduced and ConstantAttributeReproduced show the 1/w interpolation is exact, TexelInsideTexture keeps its texel inside the texture, and PerspectiveDrawsInterior shows interior pixels are drawn |
| PerspectiveTriangle.TriangleWithTexPerspectiveCorrect | 05movingCamera/main.cpp:68-109 | the buffers after the fill are the smaller-wins DepthAfter / ImageAfter of its per-pixel shading over the box clamped from the ±1e8 seed |
| PerspectiveTriangle.ScreenDepthWithin | 05movingCamera/main.cpp:90-91 | with NDC depths in [-1, 1] and convex weights, z_screen lies in [0, depth] |
| PerspectiveTriangle.ConstantAttributeReproduced | 05movingCamera/main.cpp:85-99 | a uv that is the same at the three vertices comes back unchanged after the 1/w division |
| PerspectiveTriangle.Factor | 05movingCamera/main.cpp:99 | premultiplied copies of one uv, blended and multiplied by w, give that uv |
| PerspectiveTriangle.VertexAttributeReproduced | 05movingCamera/main.cpp:85-99 | at a vertex, the interpolated uv is that vertex's own uv |
| PerspectiveTriangle.InterpolatedUWithin | 05movingCamera/main.cpp:85-99 | with positive 1/w at the vertices and convex weights, 1/w is positive and the interpolated u lies between the least and greatest vertex u |
| PerspectiveTriangle.PerspectiveRatioWithin | 05movingCamera/main.cpp:85-99 | the scalar form: (Σ bᵢ uᵢ oᵢ) / (Σ bᵢ oᵢ) lies between the least and greatest uᵢ |
| PerspectiveTriangle.RatioWithin | 05movingCamera/main.cpp:87-99 | a non-negative blend divided by its positive weight total stays in range |
| PerspectiveTriangle.NotScreenAffine | 05movingCamera/main.cpp:85-99 | u = 0 at w = 1 and u = 10 at w = 2, halfway in screen space, interpolate to 10/3 and not to 5 |
| PerspectiveTriangle.PerspectiveDrawsInterior | 05movingCamera/main.cpp:79-105 | an image pixel inside a non-degenerate triangle whose shading exists and whose depth beats the buffer is drawn with that depth and texel |
| PerspectiveTriangle.InteriorInPerspectiveBox | 05movingCamera/main.cpp:69-80 | an image pixel with non-negative weights lies in the clamped box |
| PerspectiveTriangle.TexelInsideTexture | 05movingCamera/main.cpp:100-104 | the clamped uv scaled by size - 1 gives a texel index inside the texture |
| Gouraud.CornerIntensity | 06gauraudShading/main.cpp:45-46 | max(0, n · light) is never negative and never below n · light |
| Gouraud.GouraudShader.constructor | 06gauraudShading/main.cpp:33-34 | a fresh shader's varying is zero |
| Gouraud.GouraudShader.Vertex | 06gauraudShading/main.cpp:39-56 | given an in-range face and slot, it stores the corner's intensity in slot nthvert, leaves the other slots alone, and returns transfer · (v, 1) |
| Gouraud.GouraudShader.Fragment | 06gauraudShading/main.cpp:58-66 | never discards, and the intensity is the varying dotted with the barycentric weights |
| Gouraud.FaceIntensities | 06gauraudShading/main.cpp:87-92 | after vertex has run for slots 0, 1, 2, slot j holds corner j's intensity |
| Gouraud.ShadeFaces | 06gauraudShading/main.cpp:87-95 | one fresh shader per face: every face gets its three screen positions and a varying whose three slots are all set |
| Gouraud.FaceIntensitiesNonNegative | 06gauraudShading/main.cpp:45-47 | every slot of a face's varying is ≥ 0 |
| Gouraud.FragmentIntensityWithin | 06gauraudShading/main.cpp:59 | inside the face, the fragment intensity lies between the least and greatest corner intensity |
| Gouraud.FragmentAtCorner | 06gauraudShading/main.cpp:59 | at a corner, the fragment reproduces that corner's intensity |

## Left out

- Image and file I/O: `write_tga_file`, `read_tga_file`, `flip_vertically`, `saveAndShow`'s shell-out, and every `main`. These live in a TGA library that is not part of this model.
- OBJ parsing (`Model::Model`) is not part of this model. The mesh is a parameter: the positions and normals of each face's three corners.
- `Model::normal(iface, nthvert)` reads a normal list that the parser never fills. The model reads the normals it is given.
- `image.set` and `texture.get` are foreign calls. The image is an array of opaque colors, and the texture is a function from texel to color.
- `TGAColor(255,255,255) * intensity` is not modelled. `Fragment` returns the intensity that would scale the color.
- The float line variants `line`, `line2`, `line3` and `line4` are not modelled; only the integer `line5` is.
- IEEE rounding: all arithmetic is over exact reals. So the tolerance in insideTriangle's sum test never matters, and no float overflow or NaN is modelled.
- `world2screen` and the screen mapping in `main` are glue, and their truncation is not modelled.
- `sqrt` and `tan` are parameters:
  - `norm()` is a value `n` with `n ≥ 0` and `n² = x² + y² + z²`;
  - `lookat` takes the three norms;
  - `projection` takes tanHalfFov.
- `Rasterizer::renderModelPerspective` and `Matrix::display` are not modelled. They are glue, I/O and printing, and the former calls a `projection` overload that the header does not declare.
- The 06 driver calls `lookat`, `viewport` and `projection` with signatures that the header does not declare. So `Vertex` takes the `transfer` matrix as a parameter.
- `IShader` is not modelled as an interface, and `Rasterizer::triangle` is declared but never defined. `GouraudShader` stands on its own, and the 06 driver is modelled up to the `triangle` call.
- The 05 `std::fill_n` z-buffer initialisation and `ModelView[2][3] += -2` are driver glue and are not modelled.
- Matrix entries are `real`, and the matrix size is unbounded. The source's `int` row and column counts never overflow in the model.
- Raster.DepthWalk: walks integer pixels starting from the floor of the box's low corner. This is exact for the perspective fill, whose `Vec2i P` truncates the non-negative low corner. The 03 fills step a float `P` from a possibly fractional `bboxmin`, and the model does not capture that fractional start.
- Raster.DepthWalk: the depth buffer and the image share one width and one flat index. The 03 and 05 fills index `zbuffer` with the global `width` but write through `image.set`. The model assumes both have the image's size.
- PerspectiveTriangle.TriangleWithTexPerspectiveCorrect: the 1e-8 guard on 1/w is modelled exactly. The bound on the interpolated uv, however, is proved for positive per-vertex 1/w (InterpolatedUWithin), not for every input.
- Transforms.Rasterizer.Lookat: normalize's missing zero guard becomes a precondition that the three norms are non-zero.
- Transforms.Rasterizer.constructor: the source declares `Rasterizer(int width, int height)` (rasterizer.h:9) and calls a six-argument constructor (06 main.cpp:83), but defines neither, and nothing in it sets the `depth` member that `viewport` reads. The three-argument constructor that fixes width, height and depth is the model's own.
- Matrices.Invert: M · inverse(M) = identity is proved for 1 x 1 (corrected), 2 x 2 and 4 x 4 matrices, not for every size. inverse(inverse(M)) = M is proved for 4 x 4 only under the extra hypothesis det(inverse(M)) ≠ 0, because the general case needs det(A · B) = det(A) · det(B), which is not proved. The left inverse inverse(M) · M = identity is not stated.

## Findings

| source | as written | input that shows it | evidently intended | confidence | as-written member | corrected member |
|---|---|---|---|---|---|---|
| 06gauraudShading/geometry.cpp:91-99 | `inverse` of a 1 x 1 matrix takes the determinant of an empty cofactor matrix. `Matrix(temp)` even reads `temp[0]` of an empty list. Read as 0 x 0, that determinant is 0, so the inverse is [[0]]. | [[2]]: the determinant is 2, and under the 0 x 0 reading of the empty cofactor the result is [[0]], and [[2]] · [[0]] ≠ identity(1) | the adjugate of a 1 x 1 matrix is [[1]], giving the inverse [[1/x]] | not executed | Matrices.OneByOneInverseAsWritten | Matrices.InverseOneByOne |
| 02triangles/main.cpp:159-160 | `triangle` loops `x < max.x` and `y < max.y`, so the last column and row of the bounding box are never painted | the triangle (0,0), (3,0), (0,3) in a 4 x 4 image: corner (3, 0) passes insideTriangle but stays unpainted | loops up to and including the box's max corner, so every pixel of the closed triangle is painted | not executed | FlatTriangle.HalfOpenMissesCorner | FlatTriangle.TriangleCoversInterior |
