/** Pieces shared by the three triangle fills: colors, the row-major pixel index
    of the depth buffer and image, the float bound used to seed boxes and depth
    buffers, the clamped bounding box and barycentric blending. */
module Raster {
  import opened IntArith
  import opened Vectors

  /** A TGAColor. The model never looks inside one; only equality matters. */
  datatype Color = Color(r: int, g: int, b: int, a: int)

  datatype Option<T> = None | Some(value: T)

  /** std::numeric_limits<float>::max(), that is (2 - 2^-23) * 2^127. */
  const MaxFloat: real := 340282346638528859811704183484516925440.0

  /** `std::min` and `std::max` on floats (equal arguments make the choice moot). */
  function MinR(a: real, b: real): real { if b < a then b else a }
  function MaxR(a: real, b: real): real { if a < b then b else a }

  /** The C++ conversion `int(r)`: truncation toward zero. */
  function Trunc(r: real): (n: int)
    ensures r >= 0.0 ==> n == r.Floor
    ensures n as real <= r < n as real + 1.0 || n as real - 1.0 < r <= n as real
  {
    if r >= 0.0 then r.Floor else -((-r).Floor)
  }

  /** A texture coordinate clamped into [0, 1], as `std::min(1.f, std::max(0.f, u))`
      (the other nesting of the two gives the same value). */
  function Clamp01(u: real): (r: real)
    ensures 0.0 <= r <= 1.0
    ensures 0.0 <= u <= 1.0 ==> r == u
    ensures u < 0.0 ==> r == 0.0
    ensures u > 1.0 ==> r == 1.0
  {
    MinR(1.0, MaxR(0.0, u))
  }

  /** The texel index of a clamped coordinate scaled by `n`, truncated as `int(u * n)`;
      it stays within 0 ..= n. */
  function TexelIndex(u: real, n: int): (t: int)
    ensures 0.0 <= u <= 1.0 && n >= 0 ==> 0 <= t <= n
  {
    ScaleWithin(u, n);
    Trunc(u * n as real)
  }

  lemma ScaleWithin(u: real, n: int)
    ensures 0.0 <= u <= 1.0 && n >= 0 ==> 0.0 <= u * n as real <= n as real
  {
    if 0.0 <= u <= 1.0 && n >= 0 {
      assert n as real - u * n as real == (1.0 - u) * n as real;
    }
  }

  /** The buffer cell of pixel (x, y): `x + y*width`. */
  function Idx(x: int, y: int, width: int): int { x + y * width }

  /** Idx is undone by `% width` and `/ width`, so distinct pixels of an image own
      distinct cells. */
  lemma IdxDecode(x: int, y: int, width: int)
    requires 0 <= x < width && 0 <= y
    ensures Idx(x, y, width) % width == x
    ensures Idx(x, y, width) / width == y
  {
    var n := Idx(x, y, width);
    assert width * y <= n < width * y + width;
    DivUnique(n, width, y);
  }

  /** A pixel of a width-by-height image owns a cell of a buffer of width*height cells. */
  lemma IdxInBounds(x: int, y: int, width: int, height: int)
    requires 0 <= x < width && 0 <= y < height
    ensures 0 <= Idx(x, y, width) < width * height
  {
    assert y * width <= (height - 1) * width by {
      assert (height - 1) * width - y * width == (height - 1 - y) * width;
    }
    assert 0 <= y * width;
  }

  /** Every cell of a width*height buffer belongs to a pixel of the image. */
  lemma CellPixel(k: int, width: int, height: int)
    requires width > 0 && 0 <= k < width * height
    ensures 0 <= k % width < width && 0 <= k / width < height
    ensures Idx(k % width, k / width, width) == k
  {
  }

  /** Component j of a 2D point, `v[j]`. */
  function Coord(p: Vec2f, j: int): real { if j == 0 then p.x else p.y }

  /** `min` folded over one coordinate of the points, starting from `init`. */
  function Lowest(init: real, pts: seq<Vec2f>, j: int): real
  {
    if |pts| == 0 then init else MinR(Lowest(init, pts[..|pts| - 1], j), Coord(pts[|pts| - 1], j))
  }

  /** `max` folded over one coordinate of the points, starting from `init`. */
  function Highest(init: real, pts: seq<Vec2f>, j: int): real
  {
    if |pts| == 0 then init else MaxR(Highest(init, pts[..|pts| - 1], j), Coord(pts[|pts| - 1], j))
  }

  /** The fold of min is the least of `init` and the coordinates. */
  lemma {:induction false} LowestIsLeast(init: real, pts: seq<Vec2f>, j: int)
    ensures Lowest(init, pts, j) <= init
    ensures forall k :: 0 <= k < |pts| ==> Lowest(init, pts, j) <= Coord(pts[k], j)
    ensures Lowest(init, pts, j) == init || exists k :: 0 <= k < |pts| && Lowest(init, pts, j) == Coord(pts[k], j)
    decreases |pts|
  {
    if |pts| > 0 {
      var front := pts[..|pts| - 1];
      LowestIsLeast(init, front, j);
      assert forall k :: 0 <= k < |front| ==> front[k] == pts[k];
    }
  }

  /** The fold of max is the greatest of `init` and the coordinates. */
  lemma {:induction false} HighestIsGreatest(init: real, pts: seq<Vec2f>, j: int)
    ensures Highest(init, pts, j) >= init
    ensures forall k :: 0 <= k < |pts| ==> Highest(init, pts, j) >= Coord(pts[k], j)
    ensures Highest(init, pts, j) == init || exists k :: 0 <= k < |pts| && Highest(init, pts, j) == Coord(pts[k], j)
    decreases |pts|
  {
    if |pts| > 0 {
      var front := pts[..|pts| - 1];
      HighestIsGreatest(init, front, j);
      assert forall k :: 0 <= k < |front| ==> front[k] == pts[k];
    }
  }

  /** The bounding box of a float triangle, corners clamped into [0, clamp]. */
  datatype Box = Box(lo: Vec2f, hi: Vec2f)

  /** The box the clamped min/max loops leave: the low corner starts at `init` and the
      high corner at `-init`. */
  function ClampedBox(pts: seq<Vec2f>, init: real, clamp: Vec2f): Box
  {
    Box(Vec2f(MaxR(0.0, Lowest(init, pts, 0)), MaxR(0.0, Lowest(init, pts, 1))),
        Vec2f(MinR(clamp.x, Highest(-init, pts, 0)), MinR(clamp.y, Highest(-init, pts, 1))))
  }

  /** The bounding-box loop shared by the float fills:
      `lo = max(0, min(lo, p)); hi = min(clamp, max(hi, p))` per point and axis. */
  method FindClampedBox(pts: seq<Vec2f>, init: real, clamp: Vec2f) returns (box: Box)
    requires |pts| == 3
    ensures box == ClampedBox(pts, init, clamp)
    ensures 0.0 <= box.lo.x && 0.0 <= box.lo.y && box.hi.x <= clamp.x && box.hi.y <= clamp.y
  {
    var lo := Vec2f(init, init);
    var hi := Vec2f(-init, -init);
    for i := 0 to 3
      invariant i == 0 ==> lo == Vec2f(init, init) && hi == Vec2f(-init, -init)
      invariant i > 0 ==> lo == Vec2f(MaxR(0.0, Lowest(init, pts[..i], 0)), MaxR(0.0, Lowest(init, pts[..i], 1)))
      invariant i > 0 ==> hi == Vec2f(MinR(clamp.x, Highest(-init, pts[..i], 0)), MinR(clamp.y, Highest(-init, pts[..i], 1)))
    {
      assert pts[..i + 1][..i] == pts[..i];
      lo := Vec2f(MaxR(0.0, MinR(lo.x, pts[i].x)), MaxR(0.0, MinR(lo.y, pts[i].y)));
      hi := Vec2f(MinR(clamp.x, MaxR(hi.x, pts[i].x)), MinR(clamp.y, MaxR(hi.y, pts[i].y)));
    }
    assert pts[..3] == pts;
    box := Box(lo, hi);
  }

  /** The integer pixels the `for (P = lo; P <= hi; P++)` walk visits. */
  predicate InBox(box: Box, x: int, y: int)
  {
    box.lo.x.Floor <= x && x as real <= box.hi.x && box.lo.y.Floor <= y && y as real <= box.hi.y
  }

  /** A pixel walked by the box loops lies inside the clamp rectangle. */
  lemma InBoxWithinClamp(pts: seq<Vec2f>, init: real, clamp: Vec2f, x: int, y: int)
    requires InBox(ClampedBox(pts, init, clamp), x, y)
    ensures 0 <= x && x as real <= clamp.x && 0 <= y && y as real <= clamp.y
  {
  }

  /** Component i of barycentric weights blended with per-vertex values:
      `w[0]*bc.x + w[1]*bc.y + w[2]*bc.z`, accumulated in that order. */
  function Weighted(w: seq<real>, bc: Vec3f, n: nat): real
    requires n <= 3 && n <= |w|
  {
    if n == 0 then 0.0 else Weighted(w, bc, n - 1) + w[n - 1] * bc.At(n - 1)
  }

  /** The blend written out, as the fills without an accumulation loop spell it. */
  lemma WeightedThree(w: seq<real>, bc: Vec3f)
    requires |w| >= 3
    ensures Weighted(w, bc, 3) == w[0] * bc.x + w[1] * bc.y + w[2] * bc.z
  {
    assert Weighted(w, bc, 1) == w[0] * bc.x;
    assert Weighted(w, bc, 2) == w[0] * bc.x + w[1] * bc.y;
  }

  /** Weights that are all non-negative and sum to one. */
  predicate Convex(bc: Vec3f)
  {
    bc.x >= 0.0 && bc.y >= 0.0 && bc.z >= 0.0 && bc.x + bc.y + bc.z == 1.0
  }

  lemma MulMonotone(b: real, w: real, m: real)
    requires b >= 0.0 && w >= m
    ensures w * b >= m * b
  {
    assert w * b - m * b == (w - m) * b;
  }

  lemma SumTimes(b0: real, b1: real, b2: real, m: real)
    requires b0 + b1 + b2 == 1.0
    ensures m * b0 + m * b1 + m * b2 == m
  {
    assert m * b0 + m * b1 + m * b2 == m * (b0 + b1 + b2);
  }

  lemma AddThree(p0: real, p1: real, p2: real, q0: real, q1: real, q2: real)
    requires p0 >= q0 && p1 >= q1 && p2 >= q2
    ensures p0 + p1 + p2 >= q0 + q1 + q2
  {
  }

  lemma BlendAtLeast(w0: real, w1: real, w2: real, b0: real, b1: real, b2: real, m: real)
    requires b0 >= 0.0 && b1 >= 0.0 && b2 >= 0.0 && b0 + b1 + b2 == 1.0
    requires w0 >= m && w1 >= m && w2 >= m
    ensures w0 * b0 + w1 * b1 + w2 * b2 >= m
  {
    MulMonotone(b0, w0, m);
    MulMonotone(b1, w1, m);
    MulMonotone(b2, w2, m);
    AddThree(w0 * b0, w1 * b1, w2 * b2, m * b0, m * b1, m * b2);
    SumTimes(b0, b1, b2, m);
  }

  lemma BlendAtMost(w0: real, w1: real, w2: real, b0: real, b1: real, b2: real, m: real)
    requires b0 >= 0.0 && b1 >= 0.0 && b2 >= 0.0 && b0 + b1 + b2 == 1.0
    requires w0 <= m && w1 <= m && w2 <= m
    ensures w0 * b0 + w1 * b1 + w2 * b2 <= m
  {
    MulMonotone(b0, m, w0);
    MulMonotone(b1, m, w1);
    MulMonotone(b2, m, w2);
    AddThree(m * b0, m * b1, m * b2, w0 * b0, w1 * b1, w2 * b2);
    SumTimes(b0, b1, b2, m);
  }

  /** A convex blend lies between the least and the greatest of the blended values. */
  lemma WeightedWithin(w: seq<real>, bc: Vec3f, lo: real, hi: real)
    requires |w| == 3 && Convex(bc)
    requires forall i :: 0 <= i < 3 ==> lo <= w[i] <= hi
    ensures lo <= Weighted(w, bc, 3) <= hi
  {
    WeightedThree(w, bc);
    BlendAtLeast(w[0], w[1], w[2], bc.x, bc.y, bc.z, lo);
    BlendAtMost(w[0], w[1], w[2], bc.x, bc.y, bc.z, hi);
  }

  /** A convex blend of one coordinate of the corners lies between the min fold and
      the max fold of that coordinate, whatever the seeds. */
  lemma BlendInFold(pts: seq<Vec2f>, init: real, j: int, bc: Vec3f, c: real)
    requires |pts| == 3 && Convex(bc)
    requires c == Weighted([Coord(pts[0], j), Coord(pts[1], j), Coord(pts[2], j)], bc, 3)
    ensures Lowest(init, pts, j) <= c <= Highest(-init, pts, j)
  {
    LowestIsLeast(init, pts, j);
    HighestIsGreatest(-init, pts, j);
    WeightedWithin([Coord(pts[0], j), Coord(pts[1], j), Coord(pts[2], j)], bc, Lowest(init, pts, j), Highest(-init, pts, j));
  }

  /** A point that is a convex blend of the triangle's corners, and lies in the clamp
      rectangle, is walked by the box loops: the clamped box loses no pixel of the
      triangle. */
  lemma HullInBox(pts: seq<Vec2f>, init: real, clamp: Vec2f, bc: Vec3f, x: int, y: int)
    requires |pts| == 3 && Convex(bc)
    requires x as real == Weighted([pts[0].x, pts[1].x, pts[2].x], bc, 3)
    requires y as real == Weighted([pts[0].y, pts[1].y, pts[2].y], bc, 3)
    requires 0 <= x && x as real <= clamp.x && 0 <= y && y as real <= clamp.y
    ensures InBox(ClampedBox(pts, init, clamp), x, y)
  {
    assert [Coord(pts[0], 0), Coord(pts[1], 0), Coord(pts[2], 0)] == [pts[0].x, pts[1].x, pts[2].x];
    assert [Coord(pts[0], 1), Coord(pts[1], 1), Coord(pts[2], 1)] == [pts[0].y, pts[1].y, pts[2].y];
    BlendInFold(pts, init, 0, bc, x as real);
    BlendInFold(pts, init, 1, bc, y as real);
  }

  /** What the per-pixel work of a fill hands to the depth test: the pixel's depth and
      the color to write if the test passes. */
  datatype Fragment = Fragment(z: real, color: Color)

  /** The strict depth test. The z-buffer fill keeps the larger depth, the perspective
      fill the smaller one. */
  predicate DepthPasses(greaterWins: bool, stored: real, z: real)
  {
    if greaterWins then stored < z else z < stored
  }

  /** Cell k is written by a walk of `box`: its pixel is walked, the fragment exists and
      it passes the depth test against the stored depth. */
  predicate Shaded(frag: (int, int) -> Option<Fragment>, box: Box, width: int, greaterWins: bool, stored: real, k: int)
  {
    width > 0 && InBox(box, k % width, k / width) && frag(k % width, k / width).Some? &&
    DepthPasses(greaterWins, stored, frag(k % width, k / width).value.z)
  }

  /** The depth buffer after a walk. */
  function DepthAfter(frag: (int, int) -> Option<Fragment>, box: Box, width: int, greaterWins: bool, zb: seq<real>): (r: seq<real>)
    ensures |r| == |zb|
  {
    seq(|zb|, k requires 0 <= k < |zb| =>
      if Shaded(frag, box, width, greaterWins, zb[k], k) then frag(k % width, k / width).value.z else zb[k])
  }

  /** The image after a walk; a cell takes the fragment's color exactly when its depth
      is written. */
  function ImageAfter(frag: (int, int) -> Option<Fragment>, box: Box, width: int, greaterWins: bool, zb: seq<real>, img: seq<Color>): (r: seq<Color>)
    requires |img| == |zb|
    ensures |r| == |img|
  {
    seq(|img|, k requires 0 <= k < |img| =>
      if Shaded(frag, box, width, greaterWins, zb[k], k) then frag(k % width, k / width).value.color else img[k])
  }

  /** The nested loops shared by the depth-tested fills:
      `for P.x in box, for P.y in box`, evaluate the pixel's fragment, and when the
      depth test passes write depth and color to the pixel's cell. */
  method DepthWalk(frag: (int, int) -> Option<Fragment>, box: Box, greaterWins: bool,
                   zbuffer: array<real>, image: array<Color>, width: int, height: int)
    requires width >= 0 && height >= 0 && zbuffer.Length == width * height && image.Length == width * height
    requires 0.0 <= box.lo.x && 0.0 <= box.lo.y
    requires box.hi.x <= (width - 1) as real && box.hi.y <= (height - 1) as real
    modifies zbuffer, image
    ensures zbuffer[..] == DepthAfter(frag, box, width, greaterWins, old(zbuffer[..]))
    ensures image[..] == ImageAfter(frag, box, width, greaterWins, old(zbuffer[..]), old(image[..]))
  {
    ghost var zb0, img0 := zbuffer[..], image[..];
    var x0, y0 := box.lo.x.Floor, box.lo.y.Floor;
    WalkStarts(frag, box, width, greaterWins, zb0, img0);
    var x := x0;
    while x as real <= box.hi.x
      invariant x0 <= x
      invariant WalkedTo(frag, box, width, greaterWins, zb0, img0, zbuffer[..], image[..], x, y0)
    {
      var y := y0;
      while y as real <= box.hi.y
        invariant y0 <= y
        invariant WalkedTo(frag, box, width, greaterWins, zb0, img0, zbuffer[..], image[..], x, y)
      {
        IdxInBounds(x, y, width, height);
        ghost var z, im := zbuffer[..], image[..];
        var f := frag(x, y);
        if f.Some? {
          var idx := Idx(x, y, width);
          if DepthPasses(greaterWins, zbuffer[idx], f.value.z) {
            zbuffer[idx] := f.value.z;
            image[idx] := f.value.color;
          }
        }
        PixelStep(frag, box, width, greaterWins, zb0, img0, z, im, zbuffer[..], image[..], x, y);
        y := y + 1;
      }
      ColumnEnds(frag, box, width, greaterWins, zb0, img0, zbuffer[..], image[..], x, y);
      x := x + 1;
    }
    WalkEnds(frag, box, width, greaterWins, zb0, img0, zbuffer[..], image[..], x);
  }

  /** The buffers of a walk now at (x, y): visited cells hold the walk's final value,
      the others their starting value. */
  ghost predicate WalkedTo(frag: (int, int) -> Option<Fragment>, box: Box, width: int, greaterWins: bool,
                           zb0: seq<real>, img0: seq<Color>, z: seq<real>, im: seq<Color>, x: int, y: int)
  {
    |img0| == |zb0| && |z| == |zb0| && |im| == |zb0| &&
    forall k :: 0 <= k < |zb0| ==>
      z[k] == (if Visited(k, width, x, y) then DepthAfter(frag, box, width, greaterWins, zb0)[k] else zb0[k]) &&
      im[k] == (if Visited(k, width, x, y) then ImageAfter(frag, box, width, greaterWins, zb0, img0)[k] else img0[k])
  }

  /** Before the walk, the cells counted as visited lie left of or above the box. */
  lemma WalkStarts(frag: (int, int) -> Option<Fragment>, box: Box, width: int, greaterWins: bool, zb0: seq<real>, img0: seq<Color>)
    requires |img0| == |zb0|
    ensures WalkedTo(frag, box, width, greaterWins, zb0, img0, zb0, img0, box.lo.x.Floor, box.lo.y.Floor)
  {
    forall k | 0 <= k < |zb0| && Visited(k, width, box.lo.x.Floor, box.lo.y.Floor)
      ensures !Shaded(frag, box, width, greaterWins, zb0[k], k)
    {
      assert !InBox(box, k % width, k / width);
    }
  }

  /** One pixel of the walk: the cell of (x, y) takes its final value and no other cell
      changes. */
  lemma PixelStep(frag: (int, int) -> Option<Fragment>, box: Box, width: int, greaterWins: bool,
                  zb0: seq<real>, img0: seq<Color>, z: seq<real>, im: seq<Color>, z': seq<real>, im': seq<Color>, x: int, y: int)
    requires 0 <= x < width && 0 <= y && 0 <= Idx(x, y, width) < |zb0|
    requires InBox(box, x, y)
    requires WalkedTo(frag, box, width, greaterWins, zb0, img0, z, im, x, y)
    requires frag(x, y).Some? && DepthPasses(greaterWins, z[Idx(x, y, width)], frag(x, y).value.z) ==>
      z' == z[Idx(x, y, width) := frag(x, y).value.z] && im' == im[Idx(x, y, width) := frag(x, y).value.color]
    requires !(frag(x, y).Some? && DepthPasses(greaterWins, z[Idx(x, y, width)], frag(x, y).value.z)) ==>
      z' == z && im' == im
    ensures WalkedTo(frag, box, width, greaterWins, zb0, img0, z', im', x, y + 1)
  {
    var idx := Idx(x, y, width);
    IdxDecode(x, y, width);
    var zT, imT := DepthAfter(frag, box, width, greaterWins, zb0), ImageAfter(frag, box, width, greaterWins, zb0, img0);
    forall k | 0 <= k < |zb0|
      ensures z'[k] == (if Visited(k, width, x, y + 1) then zT[k] else zb0[k])
      ensures im'[k] == (if Visited(k, width, x, y + 1) then imT[k] else img0[k])
    {
      if k == idx {
        assert !Visited(idx, width, x, y) && Visited(idx, width, x, y + 1);
        assert z[idx] == zb0[idx];
      } else {
        VisitedStep(k, width, x, y);
      }
    }
  }

  /** Moving the walk one pixel down column x visits only that pixel's cell. */
  lemma VisitedStep(k: int, width: int, x: int, y: int)
    requires 0 <= x < width && 0 <= y && 0 <= k && k != Idx(x, y, width)
    ensures Visited(k, width, x, y + 1) == Visited(k, width, x, y)
  {
    assert k == k / width * width + k % width;
  }

  /** The end of a column: the rest of column x lies below the box and the top of
      column x + 1 above it. */
  lemma ColumnEnds(frag: (int, int) -> Option<Fragment>, box: Box, width: int, greaterWins: bool,
                   zb0: seq<real>, img0: seq<Color>, z: seq<real>, im: seq<Color>, x: int, y: int)
    requires y as real > box.hi.y
    requires WalkedTo(frag, box, width, greaterWins, zb0, img0, z, im, x, y)
    ensures WalkedTo(frag, box, width, greaterWins, zb0, img0, z, im, x + 1, box.lo.y.Floor)
  {
    forall k | 0 <= k < |zb0| && width > 0 &&
        ((k % width == x && k / width >= y) || (k % width == x + 1 && k / width < box.lo.y.Floor))
      ensures !Shaded(frag, box, width, greaterWins, zb0[k], k)
    {
      if k % width == x {
        assert (k / width) as real >= y as real > box.hi.y;
      }
    }
  }

  /** The end of the walk: every cell not visited lies right of the box. */
  lemma WalkEnds(frag: (int, int) -> Option<Fragment>, box: Box, width: int, greaterWins: bool,
                 zb0: seq<real>, img0: seq<Color>, z: seq<real>, im: seq<Color>, x: int)
    requires x as real > box.hi.x
    requires WalkedTo(frag, box, width, greaterWins, zb0, img0, z, im, x, box.lo.y.Floor)
    ensures z == DepthAfter(frag, box, width, greaterWins, zb0)
    ensures im == ImageAfter(frag, box, width, greaterWins, zb0, img0)
  {
    forall k | 0 <= k < |zb0| && !Visited(k, width, x, box.lo.y.Floor)
      ensures !Shaded(frag, box, width, greaterWins, zb0[k], k)
    {
      if width > 0 {
        assert (k % width) as real >= x as real > box.hi.x;
      }
    }
  }

  /** Cell k has been visited by a column-major walk that is now at (x, y). */
  predicate Visited(k: int, width: int, x: int, y: int)
  {
    width > 0 && (k % width < x || (k % width == x && k / width < y))
  }

  /** Depth entries only move one way: never down when the larger depth wins, never
      up when the smaller one does. */
  lemma DepthMonotone(frag: (int, int) -> Option<Fragment>, box: Box, width: int, greaterWins: bool, zb: seq<real>)
    ensures forall k :: 0 <= k < |zb| ==>
      if greaterWins then DepthAfter(frag, box, width, greaterWins, zb)[k] >= zb[k]
      else DepthAfter(frag, box, width, greaterWins, zb)[k] <= zb[k]
  {
    forall k | 0 <= k < |zb|
      ensures if greaterWins then DepthAfter(frag, box, width, greaterWins, zb)[k] >= zb[k]
        else DepthAfter(frag, box, width, greaterWins, zb)[k] <= zb[k]
    {
      if Shaded(frag, box, width, greaterWins, zb[k], k) {
        assert DepthPasses(greaterWins, zb[k], frag(k % width, k / width).value.z);
      }
    }
  }

  /** Depth and color are written together: a cell whose depth is unchanged keeps its
      color, and a cell whose depth changed took the fragment's depth and color. */
  lemma ColorFollowsDepth(frag: (int, int) -> Option<Fragment>, box: Box, width: int, greaterWins: bool, zb: seq<real>, img: seq<Color>, k: int)
    requires |img| == |zb| && 0 <= k < |zb|
    ensures DepthAfter(frag, box, width, greaterWins, zb)[k] == zb[k] ==>
      ImageAfter(frag, box, width, greaterWins, zb, img)[k] == img[k]
    ensures DepthAfter(frag, box, width, greaterWins, zb)[k] != zb[k] ==>
      width > 0 && InBox(box, k % width, k / width) && frag(k % width, k / width).Some? &&
      DepthAfter(frag, box, width, greaterWins, zb)[k] == frag(k % width, k / width).value.z &&
      ImageAfter(frag, box, width, greaterWins, zb, img)[k] == frag(k % width, k / width).value.color
  {
  }

  /** Pixels outside the walked box keep both their depth and their color. */
  lemma OutsideBoxUntouched(frag: (int, int) -> Option<Fragment>, box: Box, width: int, greaterWins: bool, zb: seq<real>, img: seq<Color>, x: int, y: int)
    requires |img| == |zb| && 0 <= x < width && 0 <= y && 0 <= Idx(x, y, width) < |zb|
    requires !InBox(box, x, y)
    ensures DepthAfter(frag, box, width, greaterWins, zb)[Idx(x, y, width)] == zb[Idx(x, y, width)]
    ensures ImageAfter(frag, box, width, greaterWins, zb, img)[Idx(x, y, width)] == img[Idx(x, y, width)]
  {
    IdxDecode(x, y, width);
    var k := Idx(x, y, width);
    assert !Shaded(frag, box, width, greaterWins, zb[k], k);
  }

  /** A walked pixel whose fragment passes the depth test takes the fragment's depth
      and color. */
  lemma DrawnWhenPasses(frag: (int, int) -> Option<Fragment>, box: Box, width: int, greaterWins: bool, zb: seq<real>, img: seq<Color>, x: int, y: int)
    requires |img| == |zb| && 0 <= x < width && 0 <= y && 0 <= Idx(x, y, width) < |zb|
    requires InBox(box, x, y) && frag(x, y).Some?
    requires DepthPasses(greaterWins, zb[Idx(x, y, width)], frag(x, y).value.z)
    ensures DepthAfter(frag, box, width, greaterWins, zb)[Idx(x, y, width)] == frag(x, y).value.z
    ensures ImageAfter(frag, box, width, greaterWins, zb, img)[Idx(x, y, width)] == frag(x, y).value.color
  {
    IdxDecode(x, y, width);
    var k := Idx(x, y, width);
    assert Shaded(frag, box, width, greaterWins, zb[k], k);
  }

  /** Because the depth test is strict, a second identical walk changes nothing. */
  lemma WalkIdempotent(frag: (int, int) -> Option<Fragment>, box: Box, width: int, greaterWins: bool, zb: seq<real>, img: seq<Color>)
    requires |img| == |zb|
    ensures var zb1 := DepthAfter(frag, box, width, greaterWins, zb);
      DepthAfter(frag, box, width, greaterWins, zb1) == zb1 &&
      ImageAfter(frag, box, width, greaterWins, zb1, ImageAfter(frag, box, width, greaterWins, zb, img)) ==
        ImageAfter(frag, box, width, greaterWins, zb, img)
  {
    var zb1 := DepthAfter(frag, box, width, greaterWins, zb);
    var img1 := ImageAfter(frag, box, width, greaterWins, zb, img);
    forall k | 0 <= k < |zb|
      ensures !Shaded(frag, box, width, greaterWins, zb1[k], k)
    {
      if Shaded(frag, box, width, greaterWins, zb[k], k) {
        assert zb1[k] == frag(k % width, k / width).value.z;
      }
    }
  }
}
