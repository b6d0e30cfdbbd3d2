/** The perspective-correct textured fill of the moving-camera renderer: barycentric
    weights by Cramer's rule, 1/w and uv/w interpolated across the screen, the depth
    mapped from [-1, 1] to [0, depth], and the smaller depth winning. */
module PerspectiveTriangle {
  import opened Vectors
  import opened Raster

  /** The global `depth`: the far end of the screen-space depth range. */
  const Depth: real := 255.0

  /** The determinant below which a triangle counts as degenerate. */
  const DegenerateDenominator: real := 0.000001

  /** The interpolated 1/w below which a pixel is skipped. */
  const MinOneOverW: real := 0.00000001

  /** The bounding-box seed: plus and minus 1e8. */
  const BoxSeed: real := 100000000.0

  /** `VertexData`: a vertex after the viewport, with what the fill interpolates. */
  datatype VertexData = VertexData(screenXY: Vec2f, ndcZ: real, oneOverW: real, uvOverW: Vec2f)

  type Vertices = s: seq<VertexData> | |s| == 3
    witness [VertexData(Vec2f(0.0, 0.0), 0.0, 0.0, Vec2f(0.0, 0.0)),
             VertexData(Vec2f(0.0, 0.0), 0.0, 0.0, Vec2f(0.0, 0.0)),
             VertexData(Vec2f(0.0, 0.0), 0.0, 0.0, Vec2f(0.0, 0.0))]

  function Abs(r: real): real { if r < 0.0 then -r else r }

  /** The determinant of the 2x2 system with C as origin. */
  function Denominator(a: Vec2f, b: Vec2f, c: Vec2f): real
  {
    (b.y - c.y) * (a.x - c.x) + (c.x - b.x) * (a.y - c.y)
  }

  /** `barycentric2D`: (alpha, beta, 1 - alpha - beta) by Cramer's rule, or the sentinel
      (-1, 1, 1) when the determinant is below the tolerance. */
  function Barycentric2D(a: Vec2f, b: Vec2f, c: Vec2f, p: Vec2f): Vec3f
  {
    var denom := Denominator(a, b, c);
    if Abs(denom) < DegenerateDenominator then Vec3f(-1.0, 1.0, 1.0)
    else
      var alpha := ((b.y - c.y) * (p.x - c.x) + (c.x - b.x) * (p.y - c.y)) / denom;
      var beta := ((c.y - a.y) * (p.x - c.x) + (a.x - c.x) * (p.y - c.y)) / denom;
      Vec3f(alpha, beta, 1.0 - alpha - beta)
  }

  /** A degenerate triangle gets a negative first weight everywhere, so nothing of it
      is drawn. */
  lemma DegenerateRejected(a: Vec2f, b: Vec2f, c: Vec2f, p: Vec2f)
    requires Abs(Denominator(a, b, c)) < DegenerateDenominator
    ensures Barycentric2D(a, b, c, p).x < 0.0
  {
  }

  /** Cramer's rule for the system alpha*(a1, a2) + beta*(b1, b2) = (dx, dy). */
  lemma Cramer(a1: real, a2: real, b1: real, b2: real, dx: real, dy: real)
    requires b2 * a1 - b1 * a2 != 0.0
    ensures var d := b2 * a1 - b1 * a2;
      var alpha := (b2 * dx - b1 * dy) / d;
      var beta := (a1 * dy - a2 * dx) / d;
      alpha * a1 + beta * b1 == dx && alpha * a2 + beta * b2 == dy
  {
    var d := b2 * a1 - b1 * a2;
    var k := 1.0 / d;
    var alpha := (b2 * dx - b1 * dy) / d;
    var beta := (a1 * dy - a2 * dx) / d;
    assert alpha == (b2 * dx - b1 * dy) * k && beta == (a1 * dy - a2 * dx) * k;
    assert alpha * a1 + beta * b1 == (b2 * a1 - b1 * a2) * dx * k;
    assert alpha * a2 + beta * b2 == (b2 * a1 - b1 * a2) * dy * k;
    assert d * k == 1.0;
  }

  /** The weights of a non-degenerate triangle sum to one, and blending the corners
      with them gives back the point. */
  lemma Barycentric2DReconstructs(a: Vec2f, b: Vec2f, c: Vec2f, p: Vec2f)
    requires Abs(Denominator(a, b, c)) >= DegenerateDenominator
    ensures var r := Barycentric2D(a, b, c, p); r.x + r.y + r.z == 1.0
    ensures var r := Barycentric2D(a, b, c, p);
      a.x * r.x + b.x * r.y + c.x * r.z == p.x && a.y * r.x + b.y * r.y + c.y * r.z == p.y
  {
    var a1, a2, b1, b2 := a.x - c.x, a.y - c.y, b.x - c.x, b.y - c.y;
    var dx, dy := p.x - c.x, p.y - c.y;
    assert Denominator(a, b, c) == b2 * a1 - b1 * a2;
    Cramer(a1, a2, b1, b2, dx, dy);
    var r := Barycentric2D(a, b, c, p);
    assert r.x * a1 + r.y * b1 == dx && r.x * a2 + r.y * b2 == dy;
    assert a.x * r.x + b.x * r.y + c.x * r.z == c.x + (r.x * a1 + r.y * b1);
    assert a.y * r.x + b.y * r.y + c.y * r.z == c.y + (r.x * a2 + r.y * b2);
  }

  /** At the corners the weights are (1,0,0), (0,1,0) and (0,0,1). */
  lemma Barycentric2DAtCorners(a: Vec2f, b: Vec2f, c: Vec2f)
    requires Abs(Denominator(a, b, c)) >= DegenerateDenominator
    ensures Barycentric2D(a, b, c, a) == Vec3f(1.0, 0.0, 0.0)
    ensures Barycentric2D(a, b, c, b) == Vec3f(0.0, 1.0, 0.0)
    ensures Barycentric2D(a, b, c, c) == Vec3f(0.0, 0.0, 1.0)
  {
    var d := Denominator(a, b, c);
    assert (c.y - a.y) * (a.x - c.x) + (a.x - c.x) * (a.y - c.y) == 0.0;
    assert (b.y - c.y) * (b.x - c.x) + (c.x - b.x) * (b.y - c.y) == 0.0;
    assert (c.y - a.y) * (b.x - c.x) + (a.x - c.x) * (b.y - c.y) == d;
    assert d / d == 1.0;
  }

  /** The weights at pixel (x, y). */
  function PixelWeights(v: Vertices, x: int, y: int): Vec3f
  {
    Barycentric2D(v[0].screenXY, v[1].screenXY, v[2].screenXY, Vec2f(x as real, y as real))
  }

  /** The interpolated 1/w. */
  function BlendOneOverW(v: Vertices, bc: Vec3f): real
  {
    v[0].oneOverW * bc.x + v[1].oneOverW * bc.y + v[2].oneOverW * bc.z
  }

  /** `z_screen`: the interpolated NDC depth mapped from [-1, 1] onto [0, depth]. */
  function ScreenDepth(v: Vertices, bc: Vec3f): real
  {
    (v[0].ndcZ * bc.x + v[1].ndcZ * bc.y + v[2].ndcZ * bc.z + 1.0) * 0.5 * Depth
  }

  /** The perspective-correct uv: the interpolated uv/w times w = 1/(interpolated 1/w). */
  function InterpolatedUV(v: Vertices, bc: Vec3f): Vec2f
    requires BlendOneOverW(v, bc) != 0.0
  {
    BlendUVOverW(v, bc).Scale(1.0 / BlendOneOverW(v, bc))
  }

  /** The interpolated uv/w. */
  function BlendUVOverW(v: Vertices, bc: Vec3f): (r: Vec2f)
    ensures r.x == v[0].uvOverW.x * bc.x + v[1].uvOverW.x * bc.y + v[2].uvOverW.x * bc.z
    ensures r.y == v[0].uvOverW.y * bc.x + v[1].uvOverW.y * bc.y + v[2].uvOverW.y * bc.z
  {
    v[0].uvOverW.Scale(bc.x).Plus(v[1].uvOverW.Scale(bc.y)).Plus(v[2].uvOverW.Scale(bc.z))
  }

  /** The per-pixel work of `triangleWithTexPerspectiveCorrect`: skip a pixel with a
      negative weight or a vanishing 1/w, otherwise hand over the screen depth and the
      texel at the clamped uv scaled by the texture size less one. */
  function PerspectiveShade(v: Vertices, texture: (int, int) -> Color, tw: int, th: int, x: int, y: int): Option<Fragment>
  {
    var bc := PixelWeights(v, x, y);
    if bc.x < 0.0 || bc.y < 0.0 || bc.z < 0.0 then None
    else if BlendOneOverW(v, bc) < MinOneOverW then None
    else
      var uv := InterpolatedUV(v, bc);
      Some(Fragment(ScreenDepth(v, bc), texture(TexelIndex(Clamp01(uv.x), tw - 1), TexelIndex(Clamp01(uv.y), th - 1))))
  }

  function PerspectiveShadeOf(v: Vertices, texture: (int, int) -> Color, tw: int, th: int): (int, int) -> Option<Fragment>
  {
    (x: int, y: int) => PerspectiveShade(v, texture, tw, th, x, y)
  }

  function ScreenPoints(v: Vertices): seq<Vec2f>
  {
    [v[0].screenXY, v[1].screenXY, v[2].screenXY]
  }

  /** The clamped bounding box, seeded with plus and minus 1e8. */
  function PerspectiveBox(v: Vertices, width: int, height: int): Box
  {
    ClampedBox(ScreenPoints(v), BoxSeed, Vec2f((width - 1) as real, (height - 1) as real))
  }

  /** `triangleWithTexPerspectiveCorrect`: the clamped box walk with the smaller depth
      winning. The texture is read through `texture`, its size given as tw by th. */
  method TriangleWithTexPerspectiveCorrect(v: Vertices, zbuffer: array<real>, image: array<Color>, width: int, height: int,
                                           texture: (int, int) -> Color, tw: int, th: int)
    requires width >= 0 && height >= 0 && zbuffer.Length == width * height && image.Length == width * height
    modifies zbuffer, image
    ensures zbuffer[..] == DepthAfter(PerspectiveShadeOf(v, texture, tw, th), PerspectiveBox(v, width, height), width, false, old(zbuffer[..]))
    ensures image[..] == ImageAfter(PerspectiveShadeOf(v, texture, tw, th), PerspectiveBox(v, width, height), width, false,
                                    old(zbuffer[..]), old(image[..]))
  {
    var box := FindClampedBox(ScreenPoints(v), BoxSeed, Vec2f((width - 1) as real, (height - 1) as real));
    DepthWalk(PerspectiveShadeOf(v, texture, tw, th), box, false, zbuffer, image, width, height);
  }

  /** With NDC depths in [-1, 1] and convex weights, the screen depth is in [0, depth]. */
  lemma ScreenDepthWithin(v: Vertices, bc: Vec3f)
    requires Convex(bc)
    requires forall i :: 0 <= i < 3 ==> -1.0 <= v[i].ndcZ <= 1.0
    ensures 0.0 <= ScreenDepth(v, bc) <= Depth
  {
    var n := v[0].ndcZ * bc.x + v[1].ndcZ * bc.y + v[2].ndcZ * bc.z;
    BlendAtLeast(v[0].ndcZ, v[1].ndcZ, v[2].ndcZ, bc.x, bc.y, bc.z, -1.0);
    BlendAtMost(v[0].ndcZ, v[1].ndcZ, v[2].ndcZ, bc.x, bc.y, bc.z, 1.0);
    assert ScreenDepth(v, bc) == (n + 1.0) * 127.5;
  }

  /** The vertices carry uv premultiplied by their 1/w. */
  predicate Premultiplied(v: Vertices, uvs: seq<Vec2f>)
    requires |uvs| == 3
  {
    v[0].uvOverW == uvs[0].Scale(v[0].oneOverW) &&
    v[1].uvOverW == uvs[1].Scale(v[1].oneOverW) &&
    v[2].uvOverW == uvs[2].Scale(v[2].oneOverW)
  }

  /** An attribute that is the same at the three vertices comes back unchanged. */
  lemma ConstantAttributeReproduced(v: Vertices, uv: Vec2f, bc: Vec3f)
    requires Premultiplied(v, [uv, uv, uv])
    requires BlendOneOverW(v, bc) != 0.0
    ensures InterpolatedUV(v, bc) == uv
  {
    Factor(uv, v[0].uvOverW, v[1].uvOverW, v[2].uvOverW, v[0].oneOverW, v[1].oneOverW, v[2].oneOverW, bc,
           BlendUVOverW(v, bc), BlendOneOverW(v, bc));
  }

  /** The vector form of the blend: premultiplied copies of one uv, blended and
      divided by the blended o, give that uv back. */
  lemma Factor(uv: Vec2f, w0: Vec2f, w1: Vec2f, w2: Vec2f, o0: real, o1: real, o2: real, bc: Vec3f, n: Vec2f, s: real)
    requires w0 == uv.Scale(o0) && w1 == uv.Scale(o1) && w2 == uv.Scale(o2)
    requires n == w0.Scale(bc.x).Plus(w1.Scale(bc.y)).Plus(w2.Scale(bc.z))
    requires s == o0 * bc.x + o1 * bc.y + o2 * bc.z && s != 0.0
    ensures n.Scale(1.0 / s) == uv
  {
    FactorX(uv, w0, w1, w2, o0, o1, o2, bc, n, s);
    FactorY(uv, w0, w1, w2, o0, o1, o2, bc, n, s);
  }

  lemma FactorX(uv: Vec2f, w0: Vec2f, w1: Vec2f, w2: Vec2f, o0: real, o1: real, o2: real, bc: Vec3f, n: Vec2f, s: real)
    requires w0 == uv.Scale(o0) && w1 == uv.Scale(o1) && w2 == uv.Scale(o2)
    requires n == w0.Scale(bc.x).Plus(w1.Scale(bc.y)).Plus(w2.Scale(bc.z))
    requires s == o0 * bc.x + o1 * bc.y + o2 * bc.z && s != 0.0
    ensures n.x * (1.0 / s) == uv.x
  {
    FactorOut(uv.x, w0.x, w1.x, w2.x, o0, o1, o2, bc.x, bc.y, bc.z, s, n.x);
  }

  lemma FactorY(uv: Vec2f, w0: Vec2f, w1: Vec2f, w2: Vec2f, o0: real, o1: real, o2: real, bc: Vec3f, n: Vec2f, s: real)
    requires w0 == uv.Scale(o0) && w1 == uv.Scale(o1) && w2 == uv.Scale(o2)
    requires n == w0.Scale(bc.x).Plus(w1.Scale(bc.y)).Plus(w2.Scale(bc.z))
    requires s == o0 * bc.x + o1 * bc.y + o2 * bc.z && s != 0.0
    ensures n.y * (1.0 / s) == uv.y
  {
    FactorOut(uv.y, w0.y, w1.y, w2.y, o0, o1, o2, bc.x, bc.y, bc.z, s, n.y);
  }

  lemma FactorOut(u: real, w0: real, w1: real, w2: real, o0: real, o1: real, o2: real, b0: real, b1: real, b2: real, s: real, n: real)
    requires w0 == u * o0 && w1 == u * o1 && w2 == u * o2
    requires n == w0 * b0 + w1 * b1 + w2 * b2
    requires s == o0 * b0 + o1 * b1 + o2 * b2 && s != 0.0
    ensures n * (1.0 / s) == u
  {
    Regroup(w0, u, o0, b0);
    Regroup(w1, u, o1, b1);
    Regroup(w2, u, o2, b2);
    assert n == u * s;
  }

  /** At a vertex the interpolated uv is that vertex's own uv. */
  lemma VertexAttributeReproduced(v: Vertices, uvs: seq<Vec2f>)
    requires |uvs| == 3 && Premultiplied(v, uvs)
    requires v[0].oneOverW != 0.0
    ensures InterpolatedUV(v, Vec3f(1.0, 0.0, 0.0)) == uvs[0]
  {
    var o := v[0].oneOverW;
    assert BlendOneOverW(v, Vec3f(1.0, 0.0, 0.0)) == o;
    assert uvs[0].x * o * (1.0 / o) == uvs[0].x;
    assert uvs[0].y * o * (1.0 / o) == uvs[0].y;
  }

  /** With positive 1/w at every vertex and convex weights, the interpolated u lies
      between the least and greatest vertex u: it is a convex blend with the weights
      bc[i]/w[i], normalised. */
  lemma InterpolatedUWithin(v: Vertices, uvs: seq<Vec2f>, bc: Vec3f, lo: real, hi: real)
    requires |uvs| == 3 && Premultiplied(v, uvs) && Convex(bc)
    requires forall i :: 0 <= i < 3 ==> v[i].oneOverW > 0.0 && lo <= uvs[i].x <= hi
    ensures BlendOneOverW(v, bc) > 0.0
    ensures lo <= InterpolatedUV(v, bc).x <= hi
  {
    var o0, o1, o2 := v[0].oneOverW, v[1].oneOverW, v[2].oneOverW;
    assert v[0].uvOverW == uvs[0].Scale(o0) && v[1].uvOverW == uvs[1].Scale(o1) && v[2].uvOverW == uvs[2].Scale(o2);
    PerspectiveRatioWithin(v[0].uvOverW.x, v[1].uvOverW.x, v[2].uvOverW.x, uvs[0].x, uvs[1].x, uvs[2].x,
                           o0, o1, o2, bc.x, bc.y, bc.z, lo, hi, BlendUVOverW(v, bc).x, BlendOneOverW(v, bc));
  }

  /** The scalar core of the bound: the premultiplied values w[i] = u[i]*o[i], blended
      and divided by the blended o, are a convex blend of the u[i]. */
  lemma PerspectiveRatioWithin(w0: real, w1: real, w2: real, u0: real, u1: real, u2: real,
                               o0: real, o1: real, o2: real, b0: real, b1: real, b2: real,
                               lo: real, hi: real, n: real, s: real)
    requires w0 == u0 * o0 && w1 == u1 * o1 && w2 == u2 * o2
    requires o0 > 0.0 && o1 > 0.0 && o2 > 0.0
    requires b0 >= 0.0 && b1 >= 0.0 && b2 >= 0.0 && b0 + b1 + b2 == 1.0
    requires lo <= u0 <= hi && lo <= u1 <= hi && lo <= u2 <= hi
    requires n == w0 * b0 + w1 * b1 + w2 * b2 && s == o0 * b0 + o1 * b1 + o2 * b2
    ensures s > 0.0
    ensures lo <= n * (1.0 / s) <= hi
  {
    PositiveBlend(o0, o1, o2, b0, b1, b2);
    Regroup(w0, u0, o0, b0);
    Regroup(w1, u1, o1, b1);
    Regroup(w2, u2, o2, b2);
    RatioWithin(u0, u1, u2, o0 * b0, o1 * b1, o2 * b2, lo, hi, n, s);
  }

  lemma Regroup(w: real, u: real, o: real, b: real)
    requires w == u * o
    ensures w * b == u * (o * b)
  {
  }

  lemma PositiveBlend(o0: real, o1: real, o2: real, b0: real, b1: real, b2: real)
    requires o0 > 0.0 && o1 > 0.0 && o2 > 0.0
    requires b0 >= 0.0 && b1 >= 0.0 && b2 >= 0.0 && b0 + b1 + b2 == 1.0
    ensures o0 * b0 >= 0.0 && o1 * b1 >= 0.0 && o2 * b2 >= 0.0
    ensures o0 * b0 + o1 * b1 + o2 * b2 > 0.0
  {
    if b0 > 0.0 { assert o0 * b0 > 0.0; }
    else if b1 > 0.0 { assert o1 * b1 > 0.0; }
    else { assert o2 * b2 > 0.0; }
  }

  /** A blend with non-negative weights of positive sum, divided by that sum, lies
      between the bounds of the blended values. */
  lemma RatioWithin(u0: real, u1: real, u2: real, c0: real, c1: real, c2: real, lo: real, hi: real, n: real, s: real)
    requires c0 >= 0.0 && c1 >= 0.0 && c2 >= 0.0 && c0 + c1 + c2 > 0.0
    requires lo <= u0 <= hi && lo <= u1 <= hi && lo <= u2 <= hi
    requires n == u0 * c0 + u1 * c1 + u2 * c2 && s == c0 + c1 + c2
    ensures lo <= n * (1.0 / s) <= hi
  {
    WeightsAtLeast(u0, u1, u2, c0, c1, c2, lo);
    WeightsAtMost(u0, u1, u2, c0, c1, c2, hi);
    DivideWithin(n, s, lo, hi);
  }

  lemma WeightsAtLeast(u0: real, u1: real, u2: real, c0: real, c1: real, c2: real, lo: real)
    requires c0 >= 0.0 && c1 >= 0.0 && c2 >= 0.0
    requires lo <= u0 && lo <= u1 && lo <= u2
    ensures lo * (c0 + c1 + c2) <= u0 * c0 + u1 * c1 + u2 * c2
  {
    MulMonotone(c0, u0, lo);
    MulMonotone(c1, u1, lo);
    MulMonotone(c2, u2, lo);
    AddThree(u0 * c0, u1 * c1, u2 * c2, lo * c0, lo * c1, lo * c2);
    assert lo * c0 + lo * c1 + lo * c2 == lo * (c0 + c1 + c2);
  }

  lemma WeightsAtMost(u0: real, u1: real, u2: real, c0: real, c1: real, c2: real, hi: real)
    requires c0 >= 0.0 && c1 >= 0.0 && c2 >= 0.0
    requires u0 <= hi && u1 <= hi && u2 <= hi
    ensures u0 * c0 + u1 * c1 + u2 * c2 <= hi * (c0 + c1 + c2)
  {
    MulMonotone(c0, hi, u0);
    MulMonotone(c1, hi, u1);
    MulMonotone(c2, hi, u2);
    AddThree(hi * c0, hi * c1, hi * c2, u0 * c0, u1 * c1, u2 * c2);
    assert hi * c0 + hi * c1 + hi * c2 == hi * (c0 + c1 + c2);
  }

  lemma DivideWithin(n: real, s: real, lo: real, hi: real)
    requires s > 0.0 && lo * s <= n <= hi * s
    ensures lo <= n * (1.0 / s) <= hi
  {
    var k := 1.0 / s;
    assert k > 0.0;
    MulMonotone(k, n, lo * s);
    MulMonotone(k, hi * s, n);
    assert lo * s * k == lo * (s * k) && hi * s * k == hi * (s * k);
    assert s * k == 1.0;
  }

  /** The interpolation is not affine in screen space: halfway between a vertex with
      u = 0 at w = 1 and one with u = 10 at w = 2 it gives 10/3, not 5. */
  lemma NotScreenAffine(v: Vertices, bc: Vec3f)
    requires v[0].oneOverW == 1.0 && v[0].uvOverW == Vec2f(0.0, 0.0)
    requires v[1].oneOverW == 0.5 && v[1].uvOverW == Vec2f(5.0, 0.0)
    requires bc == Vec3f(0.5, 0.5, 0.0)
    ensures BlendOneOverW(v, bc) == 0.75
    ensures InterpolatedUV(v, bc).x == 10.0 / 3.0
  {
    ExampleBlends(v, bc);
    ExampleRatio(v, bc);
  }

  lemma ExampleBlends(v: Vertices, bc: Vec3f)
    requires v[0].oneOverW == 1.0 && v[0].uvOverW == Vec2f(0.0, 0.0)
    requires v[1].oneOverW == 0.5 && v[1].uvOverW == Vec2f(5.0, 0.0)
    requires bc == Vec3f(0.5, 0.5, 0.0)
    ensures BlendUVOverW(v, bc).x == 2.5 && BlendOneOverW(v, bc) == 0.75
  {
    HalfBlend(v[0].uvOverW.x, v[1].uvOverW.x, v[2].uvOverW.x, bc);
  }

  lemma ExampleRatio(v: Vertices, bc: Vec3f)
    requires BlendUVOverW(v, bc).x == 2.5 && BlendOneOverW(v, bc) == 0.75
    ensures InterpolatedUV(v, bc).x == 10.0 / 3.0
  {
    ThirdOfTen(BlendUVOverW(v, bc).x, BlendOneOverW(v, bc));
  }

  lemma HalfBlend(w0: real, w1: real, w2: real, bc: Vec3f)
    requires w0 == 0.0 && w1 == 5.0 && bc == Vec3f(0.5, 0.5, 0.0)
    ensures w0 * bc.x + w1 * bc.y + w2 * bc.z == 2.5
  {
  }

  lemma ThirdOfTen(n: real, s: real)
    requires n == 2.5 && s == 0.75
    ensures n * (1.0 / s) == 10.0 / 3.0
  {
  }

  /** Every pixel of the image inside a non-degenerate triangle whose 1/w does not
      vanish is drawn, depth and texel, whenever its depth is below the stored one. */
  lemma PerspectiveDrawsInterior(v: Vertices, texture: (int, int) -> Color, tw: int, th: int, width: int, height: int,
                                 zb: seq<real>, img: seq<Color>, x: int, y: int)
    requires 0 <= x < width && 0 <= y < height
    requires 0 <= Idx(x, y, width) < |zb| && |img| == |zb|
    requires Abs(Denominator(v[0].screenXY, v[1].screenXY, v[2].screenXY)) >= DegenerateDenominator
    requires PerspectiveShade(v, texture, tw, th, x, y).Some?
    requires PerspectiveShade(v, texture, tw, th, x, y).value.z < zb[Idx(x, y, width)]
    ensures DepthAfter(PerspectiveShadeOf(v, texture, tw, th), PerspectiveBox(v, width, height), width, false, zb)[Idx(x, y, width)]
      == PerspectiveShade(v, texture, tw, th, x, y).value.z
    ensures ImageAfter(PerspectiveShadeOf(v, texture, tw, th), PerspectiveBox(v, width, height), width, false, zb, img)[Idx(x, y, width)]
      == PerspectiveShade(v, texture, tw, th, x, y).value.color
  {
    InteriorInPerspectiveBox(v, width, height, x, y);
    DrawnWhenPasses(PerspectiveShadeOf(v, texture, tw, th), PerspectiveBox(v, width, height), width, false, zb, img, x, y);
  }

  lemma InteriorInPerspectiveBox(v: Vertices, width: int, height: int, x: int, y: int)
    requires 0 <= x < width && 0 <= y < height
    requires Abs(Denominator(v[0].screenXY, v[1].screenXY, v[2].screenXY)) >= DegenerateDenominator
    requires PixelWeights(v, x, y).x >= 0.0 && PixelWeights(v, x, y).y >= 0.0 && PixelWeights(v, x, y).z >= 0.0
    ensures InBox(PerspectiveBox(v, width, height), x, y)
  {
    var p := Vec2f(x as real, y as real);
    var bc := PixelWeights(v, x, y);
    assert Convex(bc);
    Barycentric2DReconstructs(v[0].screenXY, v[1].screenXY, v[2].screenXY, p);
    var pts := ScreenPoints(v);
    WeightedThree([pts[0].x, pts[1].x, pts[2].x], bc);
    WeightedThree([pts[0].y, pts[1].y, pts[2].y], bc);
    HullInBox(pts, BoxSeed, Vec2f((width - 1) as real, (height - 1) as real), bc, x, y);
  }

  /** The sampled texel stays inside the texture: the clamp keeps uv in [0, 1] and the
      scale is the size less one. */
  lemma TexelInsideTexture(u: real, n: int)
    requires n >= 1
    ensures 0 <= TexelIndex(Clamp01(u), n - 1) < n
  {
  }
}
