/** The camera and screen transforms: viewport, perspective projection, the
    lookat view matrix kept in the rasterizer's `ModelView`, and the
    point/column-matrix conversions v2m and m2v.

    `tan` and `sqrt` are not modelled: the projection takes tan(fov/2) as a
    parameter, and lookat takes the three norms it divides by, each tied to its
    vector by `IsNorm`. */
module Transforms {
  import opened Vectors
  import opened Matrices

  // ---------------------------------------------------------------------------
  // viewport

  /** `viewport(x, y, w, h)`: identity(4) with the diagonal scaled to half the
      screen extent (and half the depth range) and the translation column moved
      to the screen centre. The depth is the rasterizer's member, or the
      global 255. */
  function Viewport(x: int, y: int, w: int, h: int, depth: real): (r: Matrix)
    ensures r.Valid() && r.rows == 4 && r.cols == 4
  {
    var hw, hh, hd := w as real / 2.0, h as real / 2.0, depth / 2.0;
    Matrix(4, 4, [[hw, 0.0, 0.0, x as real + hw],
                  [0.0, hh, 0.0, y as real + hh],
                  [0.0, 0.0, hd, hd],
                  [0.0, 0.0, 0.0, 1.0]])
  }

  /** The viewport sends an NDC point (px, py, pz) to
      (x + w (px + 1) / 2, y + h (py + 1) / 2, depth (pz + 1) / 2), with w = 1. */
  lemma ViewportMapsNdc(x: int, y: int, w: int, h: int, depth: real, p: Vec3f)
    ensures var q := Apply(Viewport(x, y, w, h, depth), Embed(p));
      q[0] == x as real + w as real * (p.x + 1.0) / 2.0 &&
      q[1] == y as real + h as real * (p.y + 1.0) / 2.0 &&
      q[2] == depth * (p.z + 1.0) / 2.0 &&
      q[3] == 1.0
  {
    var m, e := Viewport(x, y, w, h, depth), Embed(p);
    var fw, fh := w as real, h as real;
    assert Dot4(m, 0, e) == fw / 2.0 * p.x + (x as real + fw / 2.0);
    assert Dot4(m, 1, e) == fh / 2.0 * p.y + (y as real + fh / 2.0);
    assert Dot4(m, 2, e) == depth / 2.0 * p.z + depth / 2.0;
    HalfShift(fw, p.x);
    HalfShift(fh, p.y);
    HalfShift(depth, p.z);
    assert Dot4(m, 0, e) == x as real + fw * (p.x + 1.0) / 2.0;
    assert Dot4(m, 1, e) == y as real + fh * (p.y + 1.0) / 2.0;
    assert Dot4(m, 2, e) == depth * (p.z + 1.0) / 2.0;
    assert Dot4(m, 3, e) == 1.0;
  }

  lemma HalfShift(a: real, t: real)
    ensures a / 2.0 * t + a / 2.0 == a * (t + 1.0) / 2.0
  {
  }

  /** NDC x = -1 / +1 lands on the screen columns x and x + w, y = -1 / +1 on the
      rows y and y + h, and z = -1 / +1 on the depths 0 and depth. */
  lemma ViewportCorners(x: int, y: int, w: int, h: int, depth: real)
    ensures var lo := Apply(Viewport(x, y, w, h, depth), Embed(Vec3f(-1.0, -1.0, -1.0)));
      lo[0] == x as real && lo[1] == y as real && lo[2] == 0.0 && lo[3] == 1.0
    ensures var hi := Apply(Viewport(x, y, w, h, depth), Embed(Vec3f(1.0, 1.0, 1.0)));
      hi[0] == (x + w) as real && hi[1] == (y + h) as real && hi[2] == depth && hi[3] == 1.0
  {
    ViewportMapsNdc(x, y, w, h, depth, Vec3f(-1.0, -1.0, -1.0));
    ViewportMapsNdc(x, y, w, h, depth, Vec3f(1.0, 1.0, 1.0));
  }

  /** For a non-negative extent, the NDC cube [-1, 1]^3 lands inside
      [x, x + w] x [y, y + h] x [0, depth]. */
  lemma ViewportMapsCube(x: int, y: int, w: int, h: int, depth: real, p: Vec3f)
    requires w >= 0 && h >= 0 && depth >= 0.0
    requires -1.0 <= p.x <= 1.0 && -1.0 <= p.y <= 1.0 && -1.0 <= p.z <= 1.0
    ensures var q := Apply(Viewport(x, y, w, h, depth), Embed(p));
      x as real <= q[0] <= (x + w) as real &&
      y as real <= q[1] <= (y + h) as real &&
      0.0 <= q[2] <= depth
  {
    ViewportMapsNdc(x, y, w, h, depth, p);
    var q := Apply(Viewport(x, y, w, h, depth), Embed(p));
    ScreenAxisWithin(x, w, p.x, q[0]);
    ScreenAxisWithin(y, h, p.y, q[1]);
    DepthAxisWithin(depth, p.z, q[2]);
  }

  lemma ScreenAxisWithin(x: int, w: int, t: real, v: real)
    requires w >= 0 && -1.0 <= t <= 1.0
    requires v == x as real + w as real * (t + 1.0) / 2.0
    ensures x as real <= v <= (x + w) as real
  {
    ScaledHalfWithin(w as real, t + 1.0, v - x as real);
    assert (x + w) as real == x as real + w as real;
  }

  lemma DepthAxisWithin(depth: real, t: real, v: real)
    requires depth >= 0.0 && -1.0 <= t <= 1.0
    requires v == depth * (t + 1.0) / 2.0
    ensures 0.0 <= v <= depth
  {
    ScaledHalfWithin(depth, t + 1.0, v);
  }

  lemma ScaledHalfWithin(a: real, t: real, d: real)
    requires a >= 0.0 && 0.0 <= t <= 2.0 && d == a * t / 2.0
    ensures 0.0 <= d <= a
  {
    NonNegativeProduct(a, t);
    NonNegativeProduct(a, 2.0 - t);
    assert a * (2.0 - t) == 2.0 * a - a * t;
  }

  lemma NonNegativeProduct(a: real, b: real)
    requires a >= 0.0 && b >= 0.0
    ensures a * b >= 0.0
  {
  }

  /** The bottom row is (0, 0, 0, 1): the homogeneous w passes through unchanged. */
  lemma ViewportKeepsW(x: int, y: int, w: int, h: int, depth: real, p: Vec4f)
    ensures Apply(Viewport(x, y, w, h, depth), p)[3] == p[3]
  {
  }

  // ---------------------------------------------------------------------------
  // projection

  /** `projection(near, far, fov)` of the moving-camera renderer, with
      aspect = width / height and tan(fov / 2) given. The divisions need
      non-zero divisors: a zero height, width, tangent or near == far would
      give an infinite entry. */
  function Projection(near: real, far: real, tanHalfFov: real, width: int, height: int): (r: Matrix)
    requires width != 0 && height != 0 && tanHalfFov != 0.0 && far != near
    ensures r.Valid() && r.rows == 4 && r.cols == 4
  {
    var aspect := width as real / height as real;
    Matrix(4, 4, [[1.0 / (aspect * tanHalfFov), 0.0, 0.0, 0.0],
                  [0.0, 1.0 / tanHalfFov, 0.0, 0.0],
                  [0.0, 0.0, -(far + near) / (far - near), -2.0 * far * near / (far - near)],
                  [0.0, 0.0, -1.0, 0.0]])
  }

  /** A view-space point (px, py, pz) gets clip w = -pz, and x, y scaled by
      1 / (aspect tan) and 1 / tan. */
  lemma ProjectionClip(near: real, far: real, tanHalfFov: real, width: int, height: int, p: Vec3f)
    requires width != 0 && height != 0 && tanHalfFov != 0.0 && far != near
    ensures var q := Apply(Projection(near, far, tanHalfFov, width, height), Embed(p));
      q[3] == -p.z &&
      q[0] == p.x / ((width as real / height as real) * tanHalfFov) &&
      q[1] == p.y / tanHalfFov
  {
    var m, e := Projection(near, far, tanHalfFov, width, height), Embed(p);
    assert Dot4(m, 3, e) == -p.z;
    var d := (width as real / height as real) * tanHalfFov;
    assert Dot4(m, 0, e) == 1.0 / d * p.x;
    assert Dot4(m, 1, e) == 1.0 / tanHalfFov * p.y;
  }

  /** A point on the near plane (z = -near) gets clip z = -w, i.e. NDC depth -1;
      a point on the far plane (z = -far) gets clip z = w, i.e. NDC depth +1. */
  lemma ProjectionNearFar(near: real, far: real, tanHalfFov: real, width: int, height: int, px: real, py: real)
    requires width != 0 && height != 0 && tanHalfFov != 0.0 && far != near
    ensures var q := Apply(Projection(near, far, tanHalfFov, width, height), Embed(Vec3f(px, py, -near)));
      q[2] == -q[3]
    ensures var q := Apply(Projection(near, far, tanHalfFov, width, height), Embed(Vec3f(px, py, -far)));
      q[2] == q[3]
  {
    var m := Projection(near, far, tanHalfFov, width, height);
    var k := 1.0 / (far - near);
    assert (far - near) * k == 1.0;
    var en, ef := Embed(Vec3f(px, py, -near)), Embed(Vec3f(px, py, -far));
    assert Dot4(m, 2, en) == (far + near) * near * k - 2.0 * far * near * k;
    assert Dot4(m, 2, ef) == (far + near) * far * k - 2.0 * far * near * k;
    calc {
      (far + near) * near * k - 2.0 * far * near * k;
      near * ((near - far) * k);
      -near;
    }
    calc {
      (far + near) * far * k - 2.0 * far * near * k;
      far * ((far - near) * k);
      far;
    }
  }

  // ---------------------------------------------------------------------------
  // v2m / m2v

  /** `v2m`: a 4 x 1 column (x, y, z, 1). */
  function V2M(v: Vec3f): (r: Matrix)
    ensures r.Valid() && r.rows == 4 && r.cols == 1
  {
    Zero(4, 1).Set(0, 0, v.x).Set(1, 0, v.y).Set(2, 0, v.z).Set(3, 0, 1.0)
  }

  /** `m2v`: the first three entries of the column divided by the fourth. */
  function M2V(m: Matrix): (r: Vec3f)
    requires m.Valid() && m.rows >= 4 && m.cols >= 1 && m.m[3][0] != 0.0
  {
    Vec3f(m.m[0][0] / m.m[3][0], m.m[1][0] / m.m[3][0], m.m[2][0] / m.m[3][0])
  }

  /** m2v undoes v2m, because v2m sets w = 1. */
  lemma M2VAfterV2M(v: Vec3f)
    ensures V2M(v).m[3][0] == 1.0
    ensures M2V(V2M(v)) == v
  {
  }

  /** m2v divides through by w: scaling a column by any non-zero factor does
      not move the point it stands for. */
  lemma M2VIgnoresScale(m: Matrix, s: real)
    requires m.Valid() && m.rows >= 4 && m.cols >= 1 && m.m[3][0] != 0.0 && s != 0.0
    ensures Scaled(m, s).m[3][0] != 0.0
    ensures M2V(Scaled(m, s)) == M2V(m)
  {
    var w := m.m[3][0];
    var ms := Scaled(m, s);
    assert ms.m[3][0] == w * s;
    assert ms.m[0][0] == m.m[0][0] * s && ms.m[1][0] == m.m[1][0] * s && ms.m[2][0] == m.m[2][0] * s;
    CancelCommon(m.m[0][0], w, s, ms.m[0][0], ms.m[3][0]);
    CancelCommon(m.m[1][0], w, s, ms.m[1][0], ms.m[3][0]);
    CancelCommon(m.m[2][0], w, s, ms.m[2][0], ms.m[3][0]);
  }

  /** (a s) / (w s) = a / w, with the scaled values named. */
  lemma CancelCommon(a: real, w: real, s: real, as': real, ws: real)
    requires w != 0.0 && s != 0.0 && as' == a * s && ws == w * s
    ensures ws != 0.0 && as' / ws == a / w
  {
    var q := a / w;
    assert a == q * w;
    assert a * s == q * (w * s);
  }

  // ---------------------------------------------------------------------------
  // lookat

  /** The three camera axes lookat computes: z from center towards eye, x = up
      cross z, y = z cross x, each normalised (to length 1) by its norm. */
  datatype Basis = Basis(x: Vec3f, y: Vec3f, z: Vec3f)

  ghost predicate BasisNorms(eye: Vec3f, center: Vec3f, up: Vec3f, nz: real, nx: real, ny: real) {
    var zd := eye.Minus(center);
    zd.IsNorm(nz) && nz != 0.0 &&
    up.Cross(zd.Normalize(1.0, nz)).IsNorm(nx) && nx != 0.0 &&
    zd.Normalize(1.0, nz).Cross(up.Cross(zd.Normalize(1.0, nz)).Normalize(1.0, nx)).IsNorm(ny) && ny != 0.0
  }

  function CameraBasis(eye: Vec3f, center: Vec3f, up: Vec3f, nz: real, nx: real, ny: real): (b: Basis)
    requires BasisNorms(eye, center, up, nz, nx, ny)
  {
    var z := eye.Minus(center).Normalize(1.0, nz);
    var x := up.Cross(z).Normalize(1.0, nx);
    var y := z.Cross(x).Normalize(1.0, ny);
    Basis(x, y, z)
  }

  /** Minv: identity(4) with rows 0, 1, 2 of the 3 x 3 block set to x, y, z. */
  function BasisMatrix(b: Basis): (r: Matrix)
    ensures r.Valid() && r.rows == 4 && r.cols == 4
  {
    Matrix(4, 4, [[b.x.x, b.x.y, b.x.z, 0.0],
                  [b.y.x, b.y.y, b.y.z, 0.0],
                  [b.z.x, b.z.y, b.z.z, 0.0],
                  [0.0, 0.0, 0.0, 1.0]])
  }

  /** ModelView = Minv * Tr, with Tr the translation by -eye. */
  function LookAtMatrix(eye: Vec3f, b: Basis): (r: Matrix)
    ensures r.Valid() && r.rows == 4 && r.cols == 4
  {
    Product(BasisMatrix(b), Translation(eye.Scale(-1.0)))
  }

  /** The rasterizer's state that lookat writes. Width, height and depth are
      fixed at construction; ModelView starts as the default 4 x 4 zero matrix. */
  class Rasterizer {
    const width: int
    const height: int
    const depth: int
    var modelView: Matrix

    constructor (width: int, height: int, depth: int)
      ensures this.width == width && this.height == height && this.depth == depth
      ensures modelView == Zero(4, 4)
    {
      this.width := width;
      this.height := height;
      this.depth := depth;
      modelView := Zero(4, 4);
    }

    /** `lookat(eye, center, up)`: builds Minv and Tr in one loop over the three
        axes, then stores their product in ModelView and changes nothing else. */
    method Lookat(eye: Vec3f, center: Vec3f, up: Vec3f, nz: real, nx: real, ny: real)
      requires BasisNorms(eye, center, up, nz, nx, ny)
      modifies this
      ensures modelView == LookAtMatrix(eye, CameraBasis(eye, center, up, nz, nx, ny))
    {
      var z := eye.Minus(center).Normalize(1.0, nz);
      var x := up.Cross(z).Normalize(1.0, nx);
      var y := z.Cross(x).Normalize(1.0, ny);
      var minv := BuildIdentity(4);
      var tr := BuildIdentity(4);
      for i := 0 to 3
        invariant minv.Valid() && minv.rows == 4 && minv.cols == 4
        invariant tr.Valid() && tr.rows == 4 && tr.cols == 4
        invariant forall j :: 0 <= j < i ==> minv.m[0][j] == x.At(j) && minv.m[1][j] == y.At(j) && minv.m[2][j] == z.At(j)
        invariant forall j :: 0 <= j < i ==> tr.m[j][3] == -eye.At(j)
        invariant forall p, q :: 0 <= p < 4 && 0 <= q < 4 && !(p < 3 && q < i) ==> minv.m[p][q] == Identity(4).m[p][q]
        invariant forall p, q :: 0 <= p < 4 && 0 <= q < 4 && !(p < i && q == 3) ==> tr.m[p][q] == Identity(4).m[p][q]
      {
        minv := minv.Set(0, i, x.At(i)).Set(1, i, y.At(i)).Set(2, i, z.At(i));
        tr := tr.Set(i, 3, -eye.At(i));
      }
      Extensionality(minv, BasisMatrix(Basis(x, y, z)));
      Extensionality(tr, Translation(eye.Scale(-1.0)));
      var mv := Multiply(minv, tr);
      modelView := mv.value;
    }
  }

  /** Rows 0-2 of ModelView's 3 x 3 block are the camera axes, its translation
      column is minus each axis dotted with eye, and its bottom row is (0, 0, 0, 1). */
  lemma LookAtLayout(eye: Vec3f, b: Basis)
    ensures var r := LookAtMatrix(eye, b);
      r.m[0][..3] == [b.x.x, b.x.y, b.x.z] &&
      r.m[1][..3] == [b.y.x, b.y.y, b.y.z] &&
      r.m[2][..3] == [b.z.x, b.z.y, b.z.z] &&
      r.m[0][3] == -b.x.Dot(eye) && r.m[1][3] == -b.y.Dot(eye) && r.m[2][3] == -b.z.Dot(eye) &&
      r.m[3] == [0.0, 0.0, 0.0, 1.0]
  {
    var a, t := BasisMatrix(b), Translation(eye.Scale(-1.0));
    var r := Product(a, t);
    forall i, j | 0 <= i < 4 && 0 <= j < 4
      ensures r.m[i][j] == a.m[i][0] * t.m[0][j] + a.m[i][1] * t.m[1][j] + a.m[i][2] * t.m[2][j] + a.m[i][3] * t.m[3][j]
    {
      ProductFourByFour(a, t, i, j);
    }
    assert r.m[0][..3] == [r.m[0][0], r.m[0][1], r.m[0][2]];
    assert r.m[1][..3] == [r.m[1][0], r.m[1][1], r.m[1][2]];
    assert r.m[2][..3] == [r.m[2][0], r.m[2][1], r.m[2][2]];
    assert r.m[3] == [r.m[3][0], r.m[3][1], r.m[3][2], r.m[3][3]];
  }

  /** ModelView takes the eye to the view-space origin. */
  lemma LookAtMapsEyeToOrigin(eye: Vec3f, b: Basis)
    ensures Apply(LookAtMatrix(eye, b), Embed(eye)) == [0.0, 0.0, 0.0, 1.0]
  {
    var a, t := BasisMatrix(b), Translation(eye.Scale(-1.0));
    ApplyProduct(a, t, Embed(eye));
    TranslationMovesPoint(eye.Scale(-1.0), eye);
    assert eye.Plus(eye.Scale(-1.0)) == Vec3f(0.0, 0.0, 0.0);
    var o := Embed(Vec3f(0.0, 0.0, 0.0));
    assert Dot4(a, 0, o) == 0.0 && Dot4(a, 1, o) == 0.0 && Dot4(a, 2, o) == 0.0 && Dot4(a, 3, o) == 1.0;
  }

  /** With z = (eye - center) / |eye - center|, the point `center` lands on the
      view-space z axis at depth -|eye - center|. */
  lemma LookAtMapsCenter(eye: Vec3f, center: Vec3f, up: Vec3f, nz: real, nx: real, ny: real)
    requires BasisNorms(eye, center, up, nz, nx, ny)
    ensures Apply(LookAtMatrix(eye, CameraBasis(eye, center, up, nz, nx, ny)), Embed(center))[2] == -nz
  {
    var b := CameraBasis(eye, center, up, nz, nx, ny);
    var a, t := BasisMatrix(b), Translation(eye.Scale(-1.0));
    ApplyProduct(a, t, Embed(center));
    TranslationMovesPoint(eye.Scale(-1.0), center);
    var d := eye.Minus(center);
    var rel := center.Plus(eye.Scale(-1.0));
    assert rel == d.Scale(-1.0);
    var k := 1.0 / nz;
    assert b.z == d.Scale(k);
    assert Dot4(a, 2, Embed(rel)) == b.z.Dot(rel);
    calc {
      b.z.Dot(rel);
      d.Scale(k).Dot(d.Scale(-1.0));
      { ScaledDot(d, k, -1.0); }
      (k * -1.0) * d.NormSquared();
      (k * -1.0) * (nz * nz);
      -((k * nz) * nz);
      { assert k * nz == 1.0; }
      -nz;
    }
  }

  lemma ScaledDot(d: Vec3f, k: real, l: real)
    ensures d.Scale(k).Dot(d.Scale(l)) == (k * l) * d.NormSquared()
  {
  }

  /** The camera axes are mutually orthogonal: x and y are built as cross
      products with z, and y as a cross product with x. */
  lemma CameraBasisOrthogonal(eye: Vec3f, center: Vec3f, up: Vec3f, nz: real, nx: real, ny: real)
    requires BasisNorms(eye, center, up, nz, nx, ny)
    ensures var b := CameraBasis(eye, center, up, nz, nx, ny);
      b.x.Dot(b.z) == 0.0 && b.y.Dot(b.z) == 0.0 && b.y.Dot(b.x) == 0.0
  {
    var b := CameraBasis(eye, center, up, nz, nx, ny);
    var z := b.z;
    var cx := up.Cross(z);
    var cy := z.Cross(b.x);
    CrossOrthogonal(up, z);
    CrossOrthogonal(z, b.x);
    CaretIsCross(up, z);
    CaretIsCross(z, b.x);
    DotScaled(cx, 1.0 / nx, z);
    DotScaled(cy, 1.0 / ny, z);
    DotScaled(cy, 1.0 / ny, b.x);
    DotCommutative(z, cx);
    DotCommutative(z, cy);
    DotCommutative(b.x, cy);
  }

  lemma DotScaled(a: Vec3f, k: real, c: Vec3f)
    ensures a.Scale(k).Dot(c) == k * a.Dot(c)
  {
  }
}
