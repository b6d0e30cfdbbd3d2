/** The z-buffer fill: barycentric weights from a cross product with a degeneracy
    sentinel, depth interpolated from the corners, and the larger depth winning. A
    flat-colored and a textured variant share the walk. */
module DepthTriangle {
  import opened Vectors
  import opened Raster

  /** The three corners `Vec3f pts[3]`: screen x, y and a depth z. */
  type Corners3 = s: seq<Vec3f> | |s| == 3 witness [Vec3f(0.0, 0.0, 0.0), Vec3f(0.0, 0.0, 0.0), Vec3f(0.0, 0.0, 0.0)]

  /** The tolerance below which the cross product's z marks a degenerate triangle. */
  const Degeneracy: real := 0.01

  function Abs(r: real): real { if r < 0.0 then -r else r }

  /** Row `s[i]` of the solve: (C[i] - A[i], B[i] - A[i], A[i] - P[i]). */
  function SolveRow(a: Vec3f, b: Vec3f, c: Vec3f, p: Vec3f, i: int): Vec3f
    requires 0 <= i < 2
  {
    Vec3f(c.At(i) - a.At(i), b.At(i) - a.At(i), a.At(i) - p.At(i))
  }

  /** `barycentric`: u = s[0] x s[1]; with |u.z| above the tolerance the weights are
      (1 - (u.x + u.y)/u.z, u.y/u.z, u.x/u.z), otherwise the sentinel (-1, 1, 1). */
  function Barycentric(a: Vec3f, b: Vec3f, c: Vec3f, p: Vec3f): Vec3f
  {
    var u := SolveRow(a, b, c, p, 0).Cross(SolveRow(a, b, c, p, 1));
    if Abs(u.z) > Degeneracy then Vec3f(1.0 - (u.x + u.y) / u.z, u.y / u.z, u.x / u.z)
    else Vec3f(-1.0, 1.0, 1.0)
  }

  /** `barycentric` as the source computes it: `s[1]` and then `s[0]` are filled by the
      count-down loop `for (i = 2; i--; )`, entry by entry. */
  method ComputeBarycentric(a: Vec3f, b: Vec3f, c: Vec3f, p: Vec3f) returns (r: Vec3f)
    ensures r == Barycentric(a, b, c, p)
  {
    var s := [Vec3f(0.0, 0.0, 0.0), Vec3f(0.0, 0.0, 0.0)];
    var i := 2;
    while i > 0
      invariant 0 <= i <= 2 && |s| == 2
      invariant forall j :: i <= j < 2 ==> s[j] == SolveRow(a, b, c, p, j)
    {
      i := i - 1;
      s := s[i := s[i].With(0, c.At(i) - a.At(i))];
      s := s[i := s[i].With(1, b.At(i) - a.At(i))];
      s := s[i := s[i].With(2, a.At(i) - p.At(i))];
    }
    var u := s[0].Cross(s[1]);
    if Abs(u.z) > Degeneracy {
      r := Vec3f(1.0 - (u.x + u.y) / u.z, u.y / u.z, u.x / u.z);
    } else {
      r := Vec3f(-1.0, 1.0, 1.0);
    }
  }

  /** Twice the signed screen area of the triangle; the z of the solve's cross product,
      whatever the point. */
  function SignedArea(a: Vec3f, b: Vec3f, c: Vec3f): real
  {
    (c.x - a.x) * (b.y - a.y) - (b.x - a.x) * (c.y - a.y)
  }

  lemma CrossZIsArea(a: Vec3f, b: Vec3f, c: Vec3f, p: Vec3f)
    ensures SolveRow(a, b, c, p, 0).Cross(SolveRow(a, b, c, p, 1)).z == SignedArea(a, b, c)
  {
  }

  /** A degenerate triangle gets a negative first weight at every point, so the fill
      rejects all of its pixels. */
  lemma DegenerateRejected(a: Vec3f, b: Vec3f, c: Vec3f, p: Vec3f)
    requires Abs(SignedArea(a, b, c)) <= Degeneracy
    ensures Barycentric(a, b, c, p).x < 0.0
  {
    CrossZIsArea(a, b, c, p);
  }

  /** The weights of a non-degenerate triangle sum to one. */
  lemma BarycentricSumsToOne(a: Vec3f, b: Vec3f, c: Vec3f, p: Vec3f)
    requires Abs(SignedArea(a, b, c)) > Degeneracy
    ensures var r := Barycentric(a, b, c, p); r.x + r.y + r.z == 1.0
  {
    CrossZIsArea(a, b, c, p);
    var u := SolveRow(a, b, c, p, 0).Cross(SolveRow(a, b, c, p, 1));
    assert (u.x + u.y) / u.z == u.x / u.z + u.y / u.z;
  }

  /** At the corners the weights are (1,0,0), (0,1,0) and (0,0,1): at A both s rows
      end in 0, so u.x = u.y = 0. */
  lemma BarycentricAtCorners(a: Vec3f, b: Vec3f, c: Vec3f, z: real)
    requires Abs(SignedArea(a, b, c)) > Degeneracy
    ensures Barycentric(a, b, c, Vec3f(a.x, a.y, z)) == Vec3f(1.0, 0.0, 0.0)
    ensures Barycentric(a, b, c, Vec3f(b.x, b.y, z)) == Vec3f(0.0, 1.0, 0.0)
    ensures Barycentric(a, b, c, Vec3f(c.x, c.y, z)) == Vec3f(0.0, 0.0, 1.0)
  {
    var d := SignedArea(a, b, c);
    CrossZIsArea(a, b, c, Vec3f(a.x, a.y, z));
    CrossZIsArea(a, b, c, Vec3f(b.x, b.y, z));
    CrossZIsArea(a, b, c, Vec3f(c.x, c.y, z));
    var ub := SolveRow(a, b, c, Vec3f(b.x, b.y, z), 0).Cross(SolveRow(a, b, c, Vec3f(b.x, b.y, z), 1));
    assert ub.x == 0.0 && ub.y == d;
    var uc := SolveRow(a, b, c, Vec3f(c.x, c.y, z), 0).Cross(SolveRow(a, b, c, Vec3f(c.x, c.y, z), 1));
    assert uc.x == d && uc.y == 0.0;
    assert d / d == 1.0;
  }

  /** Blending the corners with the weights of a non-degenerate triangle gives back the
      point: the cross product is orthogonal to both rows of the solve. */
  lemma BarycentricReconstructs(a: Vec3f, b: Vec3f, c: Vec3f, p: Vec3f)
    requires Abs(SignedArea(a, b, c)) > Degeneracy
    ensures var r := Barycentric(a, b, c, p);
      a.x * r.x + b.x * r.y + c.x * r.z == p.x && a.y * r.x + b.y * r.y + c.y * r.z == p.y
  {
    var s0, s1 := SolveRow(a, b, c, p, 0), SolveRow(a, b, c, p, 1);
    var u := s0.Cross(s1);
    CrossZIsArea(a, b, c, p);
    CaretIsCross(s0, s1);
    CrossOrthogonal(s0, s1);
    Recombine(a.x, b.x, c.x, p.x, u);
    Recombine(a.y, b.y, c.y, p.y, u);
  }

  /** One coordinate of the reconstruction: from (c - a) u.x + (b - a) u.y + (a - p) u.z = 0. */
  lemma Recombine(a: real, b: real, c: real, p: real, u: Vec3f)
    requires u.z != 0.0
    requires (c - a) * u.x + (b - a) * u.y + (a - p) * u.z == 0.0
    ensures a * (1.0 - (u.x + u.y) / u.z) + b * (u.y / u.z) + c * (u.x / u.z) == p
  {
    var k := 1.0 / u.z;
    assert (u.x + u.y) / u.z == (u.x + u.y) * k && u.y / u.z == u.y * k && u.x / u.z == u.x * k;
    assert a * (1.0 - (u.x + u.y) * k) + b * (u.y * k) + c * (u.x * k)
        == a + ((c - a) * u.x + (b - a) * u.y) * k;
    assert (c - a) * u.x + (b - a) * u.y == (p - a) * u.z;
    assert (p - a) * u.z * k == p - a;
  }

  /** The corners' screen positions, the points the bounding box is taken over. */
  function ScreenXY(pts: Corners3): seq<Vec2f>
  {
    [Vec2f(pts[0].x, pts[0].y), Vec2f(pts[1].x, pts[1].y), Vec2f(pts[2].x, pts[2].y)]
  }

  /** The clamped bounding box: seeded with plus and minus the largest float. */
  function ScreenBox(pts: Corners3, width: int, height: int): Box
  {
    ClampedBox(ScreenXY(pts), MaxFloat, Vec2f((width - 1) as real, (height - 1) as real))
  }

  /** The weights at pixel (x, y); the solve reads only the x and y of P. */
  function PixelWeights(pts: Corners3, x: int, y: int): Vec3f
  {
    Barycentric(pts[0], pts[1], pts[2], Vec3f(x as real, y as real, 0.0))
  }

  /** The corner depths, accumulated as `P.z += pts[i][2]*bc[i]`. */
  function Depths(pts: Corners3): seq<real> { [pts[0].z, pts[1].z, pts[2].z] }

  /** The per-pixel work of `triangle`: reject a pixel with a negative weight, otherwise
      interpolate its depth and hand over the flat color. */
  function Shade(pts: Corners3, color: Color, x: int, y: int): Option<Fragment>
  {
    var bc := PixelWeights(pts, x, y);
    if bc.x < 0.0 || bc.y < 0.0 || bc.z < 0.0 then None
    else Some(Fragment(Weighted(Depths(pts), bc, 3), color))
  }

  function ShadeOf(pts: Corners3, color: Color): (int, int) -> Option<Fragment>
  {
    (x: int, y: int) => Shade(pts, color, x, y)
  }

  /** The accumulation loop `P.z = 0; for (i = 0; i < 3; i++) P.z += pts[i][2]*bc[i]`. */
  method InterpolateDepth(pts: Corners3, bc: Vec3f) returns (z: real)
    ensures z == Weighted(Depths(pts), bc, 3)
  {
    z := 0.0;
    for i := 0 to 3
      invariant z == Weighted(Depths(pts), bc, i)
    {
      z := z + pts[i].z * bc.At(i);
    }
  }

  /** `triangle`: the clamped box walk with the larger depth winning. */
  method Triangle(pts: Corners3, zbuffer: array<real>, image: array<Color>, width: int, height: int, color: Color)
    requires width >= 0 && height >= 0 && zbuffer.Length == width * height && image.Length == width * height
    modifies zbuffer, image
    ensures zbuffer[..] == DepthAfter(ShadeOf(pts, color), ScreenBox(pts, width, height), width, true, old(zbuffer[..]))
    ensures image[..] == ImageAfter(ShadeOf(pts, color), ScreenBox(pts, width, height), width, true, old(zbuffer[..]), old(image[..]))
  {
    var box := FindClampedBox(ScreenXY(pts), MaxFloat, Vec2f((width - 1) as real, (height - 1) as real));
    DepthWalk(ShadeOf(pts, color), box, true, zbuffer, image, width, height);
  }

  /** An accepted pixel's depth lies between the least and greatest corner depth. */
  lemma ShadeDepthWithinCorners(pts: Corners3, color: Color, x: int, y: int, lo: real, hi: real)
    requires Abs(SignedArea(pts[0], pts[1], pts[2])) > Degeneracy
    requires forall i :: 0 <= i < 3 ==> lo <= pts[i].z <= hi
    requires Shade(pts, color, x, y).Some?
    ensures lo <= Shade(pts, color, x, y).value.z <= hi
  {
    var bc := PixelWeights(pts, x, y);
    BarycentricSumsToOne(pts[0], pts[1], pts[2], Vec3f(x as real, y as real, 0.0));
    WeightedWithin(Depths(pts), bc, lo, hi);
  }

  /** Every in-image pixel with non-negative weights in a non-degenerate triangle lies
      in the clamped box, so the walk reaches it. */
  lemma InteriorInScreenBox(pts: Corners3, width: int, height: int, x: int, y: int)
    requires 0 <= x < width && 0 <= y < height
    requires Abs(SignedArea(pts[0], pts[1], pts[2])) > Degeneracy
    requires PixelWeights(pts, x, y).x >= 0.0 && PixelWeights(pts, x, y).y >= 0.0 && PixelWeights(pts, x, y).z >= 0.0
    ensures InBox(ScreenBox(pts, width, height), x, y)
  {
    var p := Vec3f(x as real, y as real, 0.0);
    var bc := PixelWeights(pts, x, y);
    BarycentricSumsToOne(pts[0], pts[1], pts[2], p);
    BarycentricReconstructs(pts[0], pts[1], pts[2], p);
    var xy := ScreenXY(pts);
    WeightedThree([xy[0].x, xy[1].x, xy[2].x], bc);
    WeightedThree([xy[0].y, xy[1].y, xy[2].y], bc);
    HullInBox(xy, MaxFloat, Vec2f((width - 1) as real, (height - 1) as real), bc, x, y);
  }

  /** A pixel of the image inside a non-degenerate triangle is drawn, depth and color,
      whenever its depth beats the stored one. */
  lemma TriangleDrawsInterior(pts: Corners3, color: Color, width: int, height: int, zb: seq<real>, img: seq<Color>, x: int, y: int)
    requires 0 <= x < width && 0 <= y < height
    requires 0 <= Idx(x, y, width) < |zb| && |img| == |zb|
    requires Abs(SignedArea(pts[0], pts[1], pts[2])) > Degeneracy
    requires Shade(pts, color, x, y).Some?
    requires zb[Idx(x, y, width)] < Shade(pts, color, x, y).value.z
    ensures DepthAfter(ShadeOf(pts, color), ScreenBox(pts, width, height), width, true, zb)[Idx(x, y, width)]
      == Shade(pts, color, x, y).value.z
    ensures ImageAfter(ShadeOf(pts, color), ScreenBox(pts, width, height), width, true, zb, img)[Idx(x, y, width)] == color
  {
    InteriorInScreenBox(pts, width, height, x, y);
    DrawnWhenPasses(ShadeOf(pts, color), ScreenBox(pts, width, height), width, true, zb, img, x, y);
  }

  /** The textured variant's per-pixel work: the depth as in `triangle`, the texture
      coordinates blended the same way, clamped into [0, 1] and scaled by the texture's
      size to pick the texel. */
  function ShadeTextured(pts: Corners3, tex: seq<Vec2f>, texture: (int, int) -> Color, tw: int, th: int, x: int, y: int): Option<Fragment>
    requires |tex| == 3
  {
    var bc := PixelWeights(pts, x, y);
    if bc.x < 0.0 || bc.y < 0.0 || bc.z < 0.0 then None
    else
      var u := Clamp01(Weighted([tex[0].x, tex[1].x, tex[2].x], bc, 3));
      var v := Clamp01(Weighted([tex[0].y, tex[1].y, tex[2].y], bc, 3));
      Some(Fragment(Weighted(Depths(pts), bc, 3), texture(TexelIndex(u, tw), TexelIndex(v, th))))
  }

  function ShadeTexturedOf(pts: Corners3, tex: seq<Vec2f>, texture: (int, int) -> Color, tw: int, th: int): (int, int) -> Option<Fragment>
    requires |tex| == 3
  {
    (x: int, y: int) => ShadeTextured(pts, tex, texture, tw, th, x, y)
  }

  /** `triangleWithTex`: the same walk and depth test, writing a texel. The texture is
      read through `texture`, its size given as tw by th. */
  method TriangleWithTex(pts: Corners3, tex: seq<Vec2f>, zbuffer: array<real>, image: array<Color>, width: int, height: int,
                         texture: (int, int) -> Color, tw: int, th: int)
    requires |tex| == 3
    requires width >= 0 && height >= 0 && zbuffer.Length == width * height && image.Length == width * height
    modifies zbuffer, image
    ensures zbuffer[..] == DepthAfter(ShadeTexturedOf(pts, tex, texture, tw, th), ScreenBox(pts, width, height), width, true, old(zbuffer[..]))
    ensures image[..] == ImageAfter(ShadeTexturedOf(pts, tex, texture, tw, th), ScreenBox(pts, width, height), width, true,
                                    old(zbuffer[..]), old(image[..]))
  {
    var box := FindClampedBox(ScreenXY(pts), MaxFloat, Vec2f((width - 1) as real, (height - 1) as real));
    DepthWalk(ShadeTexturedOf(pts, tex, texture, tw, th), box, true, zbuffer, image, width, height);
  }

  /** The textured fill has the same depths as the flat one: the texture only changes
      what color is written. */
  lemma TexturedSameDepth(pts: Corners3, tex: seq<Vec2f>, texture: (int, int) -> Color, tw: int, th: int, color: Color, x: int, y: int)
    requires |tex| == 3
    ensures ShadeTextured(pts, tex, texture, tw, th, x, y).Some? == Shade(pts, color, x, y).Some?
    ensures Shade(pts, color, x, y).Some? ==>
      ShadeTextured(pts, tex, texture, tw, th, x, y).value.z == Shade(pts, color, x, y).value.z
  {
  }

  /** The z-buffer initialisation `for (i = width*height; i--; ) zbuffer[i] = -max`. */
  method InitDepthBuffer(width: int, height: int) returns (zbuffer: array<real>)
    requires width >= 0 && height >= 0
    ensures fresh(zbuffer) && zbuffer.Length == width * height
    ensures forall k :: 0 <= k < zbuffer.Length ==> zbuffer[k] == -MaxFloat
  {
    zbuffer := new real[width * height];
    var i := width * height;
    while i > 0
      invariant 0 <= i <= zbuffer.Length
      invariant forall k :: i <= k < zbuffer.Length ==> zbuffer[k] == -MaxFloat
    {
      i := i - 1;
      zbuffer[i] := -MaxFloat;
    }
  }
}
