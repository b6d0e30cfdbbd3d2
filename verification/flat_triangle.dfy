/** The first triangle fill: an integer bounding box, barycentric weights from edge
    functions, an inside test with a small tolerance, and one flat color per triangle
    written straight into the image (no depth buffer). */
module FlatTriangle {
  import opened Vectors
  import opened Raster

  /** The tolerance of the inside test. */
  const Eps: real := 0.000001

  function MinI(a: int, b: int): int { if b < a then b else a }
  function MaxI(a: int, b: int): int { if a < b then b else a }

  /** Component j of an integer point. */
  function CoordI(p: Vec2i, j: int): int { if j == 0 then p.x else p.y }

  /** `min` folded over coordinate j of the first n points, starting from `init`. */
  function LowestI(init: int, pts: Corners, n: nat, j: int): int
    requires n <= |pts|
  {
    if n == 0 then init else MinI(LowestI(init, pts, n - 1, j), CoordI(pts[n - 1], j))
  }

  /** `max` folded over coordinate j of the first n points, starting from `init`. */
  function HighestI(init: int, pts: Corners, n: nat, j: int): int
    requires n <= |pts|
  {
    if n == 0 then init else MaxI(HighestI(init, pts, n - 1, j), CoordI(pts[n - 1], j))
  }

  /** The three corners `Vec2i pts[3]` of a screen triangle. */
  type Corners = s: seq<Vec2i> | |s| == 3 witness [Vec2i(0, 0), Vec2i(0, 0), Vec2i(0, 0)]

  datatype IntBox = IntBox(lo: Vec2i, hi: Vec2i)

  /** The box `findBoundingBox` returns: the low corner is seeded with the image's far
      corner, the high corner with the origin, and both are clamped to the image. */
  function BoundingBox(pts: Corners, width: int, height: int): IntBox
  {
    IntBox(Vec2i(MaxI(0, LowestI(width - 1, pts, 3, 0)), MaxI(0, LowestI(height - 1, pts, 3, 1))),
           Vec2i(MinI(width - 1, HighestI(0, pts, 3, 0)), MinI(height - 1, HighestI(0, pts, 3, 1))))
  }

  /** `findBoundingBox`: one pass over the three points, clamping after every step. */
  method FindBoundingBox(pts: Corners, width: int, height: int) returns (box: IntBox)
    ensures box == BoundingBox(pts, width, height)
  {
    var lo := Vec2i(width - 1, height - 1);
    var hi := Vec2i(0, 0);
    for i := 0 to 3
      invariant i == 0 ==> lo == Vec2i(width - 1, height - 1) && hi == Vec2i(0, 0)
      invariant i > 0 ==> lo == Vec2i(MaxI(0, LowestI(width - 1, pts, i, 0)), MaxI(0, LowestI(height - 1, pts, i, 1)))
      invariant i > 0 ==> hi == Vec2i(MinI(width - 1, HighestI(0, pts, i, 0)), MinI(height - 1, HighestI(0, pts, i, 1)))
    {
      lo := Vec2i(MaxI(0, MinI(lo.x, pts[i].x)), MaxI(0, MinI(lo.y, pts[i].y)));
      hi := Vec2i(MinI(width - 1, MaxI(hi.x, pts[i].x)), MinI(height - 1, MaxI(hi.y, pts[i].y)));
    }
    box := IntBox(lo, hi);
  }

  /** The corners of the box always lie in [0, W-1] x [0, H-1] for a non-empty image,
      and the low corner never passes the high one. */
  lemma BoundingBoxInImage(pts: Corners, width: int, height: int)
    requires width > 0 && height > 0
    ensures var b := BoundingBox(pts, width, height);
      0 <= b.lo.x <= b.hi.x <= width - 1 && 0 <= b.lo.y <= b.hi.y <= height - 1
  {
    FoldsOfThree(width - 1, 0, pts, 0);
    FoldsOfThree(height - 1, 0, pts, 1);
  }

  /** The folds over three points written out. */
  lemma FoldsOfThree(lowInit: int, highInit: int, pts: Corners, j: int)
    ensures LowestI(lowInit, pts, 3, j) ==
      MinI(MinI(MinI(lowInit, CoordI(pts[0], j)), CoordI(pts[1], j)), CoordI(pts[2], j))
    ensures HighestI(highInit, pts, 3, j) ==
      MaxI(MaxI(MaxI(highInit, CoordI(pts[0], j)), CoordI(pts[1], j)), CoordI(pts[2], j))
  {
    assert LowestI(lowInit, pts, 1, j) == MinI(lowInit, CoordI(pts[0], j));
    assert HighestI(highInit, pts, 1, j) == MaxI(highInit, CoordI(pts[0], j));
  }

  /** When the three points lie in the image, the box is exactly their componentwise
      minimum and maximum. */
  lemma BoundingBoxExact(pts: Corners, width: int, height: int)
    requires forall i :: 0 <= i < 3 ==> 0 <= pts[i].x < width && 0 <= pts[i].y < height
    ensures var b := BoundingBox(pts, width, height);
      b.lo == Vec2i(MinI(MinI(pts[0].x, pts[1].x), pts[2].x), MinI(MinI(pts[0].y, pts[1].y), pts[2].y)) &&
      b.hi == Vec2i(MaxI(MaxI(pts[0].x, pts[1].x), pts[2].x), MaxI(MaxI(pts[0].y, pts[1].y), pts[2].y))
  {
    FoldsOfThree(width - 1, 0, pts, 0);
    FoldsOfThree(height - 1, 0, pts, 1);
  }

  /** The affine edge function through a and b, evaluated at (px, py). */
  function Edge(px: real, py: real, a: Vec2f, b: Vec2f): real
  {
    px * (a.y - b.y) + (b.x - a.x) * py + a.x * b.y - b.x * a.y
  }

  function ToF(p: Vec2i): Vec2f { Vec2f(p.x as real, p.y as real) }

  /** Twice the signed area of the triangle: the denominator of every weight. */
  function Area(v: Corners): real
  {
    Edge(ToF(v[0]).x, ToF(v[0]).y, ToF(v[1]), ToF(v[2]))
  }

  /** `computeBarycentric2D`: each weight is the edge function opposite a corner at the
      point, divided by that edge function at the corner. With a zero denominator the
      float division yields an infinity or NaN that no later comparison accepts; the
      model returns None there. */
  function ComputeBarycentric2D(x: real, y: real, v: Corners): (r: Option<Vec3f>)
  {
    Weights(x, y, ToF(v[0]), ToF(v[1]), ToF(v[2]))
  }

  /** The weights of (x, y) against corners a, b, c given as float points. */
  function Weights(x: real, y: real, a: Vec2f, b: Vec2f, c: Vec2f): Option<Vec3f>
  {
    var d1, d2, d3 := Edge(a.x, a.y, b, c), Edge(b.x, b.y, c, a), Edge(c.x, c.y, a, b);
    if d1 == 0.0 || d2 == 0.0 || d3 == 0.0 then None
    else Some(Vec3f(Edge(x, y, b, c) / d1, Edge(x, y, c, a) / d2, Edge(x, y, a, b) / d3))
  }

  /** The three denominators are the same number, twice the signed area, so the weights
      exist exactly when the triangle is not degenerate. */
  lemma DenominatorsEqual(v: Corners)
    ensures var a, b, c := ToF(v[0]), ToF(v[1]), ToF(v[2]);
      Edge(b.x, b.y, c, a) == Area(v) && Edge(c.x, c.y, a, b) == Area(v)
    ensures forall x: real, y: real :: ComputeBarycentric2D(x, y, v).Some? <==> Area(v) != 0.0
  {
  }

  /** The weights of a non-degenerate triangle sum to one. */
  lemma BarycentricSumsToOne(x: real, y: real, v: Corners)
    requires Area(v) != 0.0
    ensures ComputeBarycentric2D(x, y, v).Some?
    ensures var c := ComputeBarycentric2D(x, y, v).value; c.x + c.y + c.z == 1.0
  {
    DenominatorsEqual(v);
    var a, b, c := ToF(v[0]), ToF(v[1]), ToF(v[2]);
    var d := Area(v);
    var n1, n2, n3 := Edge(x, y, b, c), Edge(x, y, c, a), Edge(x, y, a, b);
    assert n1 + n2 + n3 == d;
    DivideSum(n1, n2, n3, d);
  }

  lemma DivideSum(n1: real, n2: real, n3: real, d: real)
    requires d != 0.0 && n1 + n2 + n3 == d
    ensures n1 / d + n2 / d + n3 / d == 1.0
  {
    assert n1 / d + n2 / d + n3 / d == (n1 + n2 + n3) / d;
  }

  /** At each corner its own weight is one and the other two are zero. */
  lemma BarycentricAtCorners(v: Corners)
    requires Area(v) != 0.0
    ensures ComputeBarycentric2D(v[0].x as real, v[0].y as real, v) == Some(Vec3f(1.0, 0.0, 0.0))
    ensures ComputeBarycentric2D(v[1].x as real, v[1].y as real, v) == Some(Vec3f(0.0, 1.0, 0.0))
    ensures ComputeBarycentric2D(v[2].x as real, v[2].y as real, v) == Some(Vec3f(0.0, 0.0, 1.0))
  {
    DenominatorsEqual(v);
    var a, b, c := ToF(v[0]), ToF(v[1]), ToF(v[2]);
    var d := Area(v);
    assert Edge(a.x, a.y, c, a) == 0.0 && Edge(a.x, a.y, a, b) == 0.0;
    assert Edge(b.x, b.y, b, c) == 0.0 && Edge(b.x, b.y, a, b) == 0.0;
    assert Edge(c.x, c.y, b, c) == 0.0 && Edge(c.x, c.y, c, a) == 0.0;
    assert d / d == 1.0 && 0.0 / d == 0.0;
  }

  /** Blending the corners with the weights gives back the point. */
  lemma BarycentricReconstructs(x: real, y: real, v: Corners)
    requires Area(v) != 0.0
    ensures ComputeBarycentric2D(x, y, v).Some?
    ensures var w := ComputeBarycentric2D(x, y, v).value;
      (v[0].x as real) * w.x + (v[1].x as real) * w.y + (v[2].x as real) * w.z == x &&
      (v[0].y as real) * w.x + (v[1].y as real) * w.y + (v[2].y as real) * w.z == y
  {
    DenominatorsEqual(v);
    var a, b, c := ToF(v[0]), ToF(v[1]), ToF(v[2]);
    var d := Area(v);
    var n1, n2, n3 := Edge(x, y, b, c), Edge(x, y, c, a), Edge(x, y, a, b);
    assert n1 * a.x + n2 * b.x + n3 * c.x == x * d;
    assert n1 * a.y + n2 * b.y + n3 * c.y == y * d;
    DivideBlend(n1, n2, n3, a.x, b.x, c.x, d, x);
    DivideBlend(n1, n2, n3, a.y, b.y, c.y, d, y);
  }

  lemma DivideBlend(n1: real, n2: real, n3: real, p: real, q: real, r: real, d: real, t: real)
    requires d != 0.0 && n1 * p + n2 * q + n3 * r == t * d
    ensures p * (n1 / d) + q * (n2 / d) + r * (n3 / d) == t
  {
    var k := 1.0 / d;
    assert n1 / d == n1 * k && n2 / d == n2 * k && n3 / d == n3 * k;
    assert (n1 * k) * p + (n2 * k) * q + (n3 * k) * r == (n1 * p + n2 * q + n3 * r) * k;
    assert (t * d) * k == t * (d * k);
    assert p * (n1 / d) + q * (n2 / d) + r * (n3 / d) == (n1 / d) * p + (n2 / d) * q + (n3 / d) * r;
  }

  function Abs(r: real): real { if r < 0.0 then -r else r }

  /** `insideTriangle`: every weight at least -Eps and their sum within Eps of one. */
  predicate InsideTriangle(x: int, y: int, v: Corners)
  {
    match ComputeBarycentric2D(x as real, y as real, v)
    case None => false
    case Some(c) => c.x >= -Eps && c.y >= -Eps && c.z >= -Eps && Abs(c.x + c.y + c.z - 1.0) <= Eps
  }

  /** Over exact arithmetic the sum test never fails, so a pixel is inside exactly when
      the triangle is not degenerate and no weight is below -Eps. */
  lemma InsideTriangleIff(x: int, y: int, v: Corners)
    ensures InsideTriangle(x, y, v) <==>
      Area(v) != 0.0 &&
      var c := ComputeBarycentric2D(x as real, y as real, v).value;
      c.x >= -Eps && c.y >= -Eps && c.z >= -Eps
  {
    DenominatorsEqual(v);
    if Area(v) != 0.0 {
      BarycentricSumsToOne(x as real, y as real, v);
    }
  }

  /** The image after walking the half-open box [lo, end) and painting every pixel the
      `inside` test accepts; cells outside the box, or rejected, keep their color. */
  function Fill(inside: (int, int) -> bool, lo: Vec2i, end: Vec2i, width: int, color: Color, img: seq<Color>): (r: seq<Color>)
    ensures |r| == |img|
  {
    seq(|img|, k requires 0 <= k < |img| =>
      if width > 0 && Walked(lo, end, k % width, k / width) && inside(k % width, k / width) then color else img[k])
  }

  predicate Walked(lo: Vec2i, end: Vec2i, x: int, y: int)
  {
    lo.x <= x < end.x && lo.y <= y < end.y
  }

  /** The two nested loops of `triangle`: `for x in [lo.x, end.x) for y in [lo.y, end.y)`,
      setting the pixel when the inside test accepts it. */
  method FillBox(inside: (int, int) -> bool, image: array<Color>, width: int, height: int, lo: Vec2i, end: Vec2i, color: Color)
    requires width >= 0 && height >= 0 && image.Length == width * height
    requires 0 <= lo.x && 0 <= lo.y && end.x <= width && end.y <= height
    modifies image
    ensures image[..] == Fill(inside, lo, end, width, color, old(image[..]))
  {
    ghost var orig := image[..];
    FillStarts(inside, lo, end, width, color, orig);
    var x := lo.x;
    while x < end.x
      invariant lo.x <= x
      invariant FilledTo(inside, lo, end, width, color, orig, image[..], x, lo.y)
    {
      var y := lo.y;
      while y < end.y
        invariant lo.y <= y
        invariant FilledTo(inside, lo, end, width, color, orig, image[..], x, y)
      {
        IdxInBounds(x, y, width, height);
        ghost var im := image[..];
        if inside(x, y) {
          image[Idx(x, y, width)] := color;
        }
        FillStep(inside, lo, end, width, color, orig, im, image[..], x, y);
        y := y + 1;
      }
      FillColumnEnds(inside, lo, end, width, color, orig, image[..], x, y);
      x := x + 1;
    }
    FillEnds(inside, lo, end, width, color, orig, image[..], x);
  }

  /** The image of a walk now at (x, y): visited cells hold the walk's final color, the
      others their starting color. */
  ghost predicate FilledTo(inside: (int, int) -> bool, lo: Vec2i, end: Vec2i, width: int, color: Color,
                           orig: seq<Color>, im: seq<Color>, x: int, y: int)
  {
    |im| == |orig| &&
    forall k :: 0 <= k < |orig| ==>
      im[k] == if Visited(k, width, x, y) then Fill(inside, lo, end, width, color, orig)[k] else orig[k]
  }

  /** Before the walk, the cells counted as visited lie left of or above the box. */
  lemma FillStarts(inside: (int, int) -> bool, lo: Vec2i, end: Vec2i, width: int, color: Color, orig: seq<Color>)
    ensures FilledTo(inside, lo, end, width, color, orig, orig, lo.x, lo.y)
  {
    forall k | 0 <= k < |orig| && Visited(k, width, lo.x, lo.y)
      ensures !Walked(lo, end, k % width, k / width)
    {
    }
  }

  /** One pixel of the walk: the cell of (x, y) takes its final color and no other cell
      changes. */
  lemma FillStep(inside: (int, int) -> bool, lo: Vec2i, end: Vec2i, width: int, color: Color,
                 orig: seq<Color>, im: seq<Color>, im': seq<Color>, x: int, y: int)
    requires 0 <= x < width && 0 <= y && 0 <= Idx(x, y, width) < |orig|
    requires lo.x <= x < end.x && lo.y <= y < end.y
    requires FilledTo(inside, lo, end, width, color, orig, im, x, y)
    requires im' == if inside(x, y) then im[Idx(x, y, width) := color] else im
    ensures FilledTo(inside, lo, end, width, color, orig, im', x, y + 1)
  {
    var idx := Idx(x, y, width);
    IdxDecode(x, y, width);
    forall k | 0 <= k < |orig|
      ensures im'[k] == if Visited(k, width, x, y + 1) then Fill(inside, lo, end, width, color, orig)[k] else orig[k]
    {
      if k == idx {
        assert Visited(idx, width, x, y + 1);
      } else {
        VisitedStep(k, width, x, y);
      }
    }
  }

  /** The end of a column: the rest of column x lies below the box and the top of
      column x + 1 above it. */
  lemma FillColumnEnds(inside: (int, int) -> bool, lo: Vec2i, end: Vec2i, width: int, color: Color,
                       orig: seq<Color>, im: seq<Color>, x: int, y: int)
    requires y >= end.y
    requires FilledTo(inside, lo, end, width, color, orig, im, x, y)
    ensures FilledTo(inside, lo, end, width, color, orig, im, x + 1, lo.y)
  {
    forall k | 0 <= k < |orig| && width > 0 &&
        ((k % width == x && k / width >= y) || (k % width == x + 1 && k / width < lo.y))
      ensures !Walked(lo, end, k % width, k / width)
    {
    }
  }

  /** The end of the walk: every cell not visited lies right of the box. */
  lemma FillEnds(inside: (int, int) -> bool, lo: Vec2i, end: Vec2i, width: int, color: Color,
                 orig: seq<Color>, im: seq<Color>, x: int)
    requires x >= end.x
    requires FilledTo(inside, lo, end, width, color, orig, im, x, lo.y)
    ensures im == Fill(inside, lo, end, width, color, orig)
  {
    forall k | 0 <= k < |orig| && width > 0 && !Visited(k, width, x, lo.y)
      ensures !Walked(lo, end, k % width, k / width)
    {
    }
  }

  /** The cell of pixel (x, y) after a walk. */
  lemma FillAt(inside: (int, int) -> bool, lo: Vec2i, end: Vec2i, width: int, height: int, color: Color, img: seq<Color>, x: int, y: int)
    requires |img| == width * height && 0 <= x < width && 0 <= y < height
    ensures 0 <= Idx(x, y, width) < |img|
    ensures Fill(inside, lo, end, width, color, img)[Idx(x, y, width)] ==
      if Walked(lo, end, x, y) && inside(x, y) then color else img[Idx(x, y, width)]
  {
    IdxInBounds(x, y, width, height);
    IdxDecode(x, y, width);
  }

  /** Walking the same box with one flat color twice leaves the image as walking it once. */
  lemma FillIdempotent(inside: (int, int) -> bool, lo: Vec2i, end: Vec2i, width: int, color: Color, img: seq<Color>)
    ensures Fill(inside, lo, end, width, color, Fill(inside, lo, end, width, color, img)) == Fill(inside, lo, end, width, color, img)
  {
  }

  /** The inside test of `triangle`. */
  function InsideOf(pts: Corners): (int, int) -> bool
  {
    (x: int, y: int) => InsideTriangle(x, y, pts)
  }

  /** The image after `triangle` as written: its loops stop before the high corner of
      the box. */
  function Painted(pts: Corners, width: int, height: int, color: Color, img: seq<Color>): (r: seq<Color>)
    ensures |r| == |img|
  {
    var b := BoundingBox(pts, width, height);
    Fill(InsideOf(pts), b.lo, b.hi, width, color, img)
  }

  /** The image after the inclusive walk of the box, as the clamped box is meant. */
  function PaintedInclusive(pts: Corners, width: int, height: int, color: Color, img: seq<Color>): (r: seq<Color>)
    ensures |r| == |img|
  {
    var b := BoundingBox(pts, width, height);
    Fill(InsideOf(pts), b.lo, Vec2i(b.hi.x + 1, b.hi.y + 1), width, color, img)
  }

  /** `triangle` writes one flat color, so running it twice equals running it once. */
  lemma PaintedIdempotent(pts: Corners, width: int, height: int, color: Color, img: seq<Color>)
    ensures Painted(pts, width, height, color, Painted(pts, width, height, color, img)) == Painted(pts, width, height, color, img)
  {
    var b := BoundingBox(pts, width, height);
    FillIdempotent(InsideOf(pts), b.lo, b.hi, width, color, img);
  }

  /** `triangle` as written. */
  method TriangleAsWritten(pts: Corners, image: array<Color>, width: int, height: int, color: Color)
    requires width >= 0 && height >= 0 && image.Length == width * height
    modifies image
    ensures image[..] == Painted(pts, width, height, color, old(image[..]))
  {
    var box := FindBoundingBox(pts, width, height);
    FoldsOfThree(width - 1, 0, pts, 0);
    FoldsOfThree(height - 1, 0, pts, 1);
    FillBox(InsideOf(pts), image, width, height, box.lo, box.hi, color);
  }

  /** `triangle` with both loops running up to and including the high corner. */
  method Triangle(pts: Corners, image: array<Color>, width: int, height: int, color: Color)
    requires width >= 0 && height >= 0 && image.Length == width * height
    modifies image
    ensures image[..] == PaintedInclusive(pts, width, height, color, old(image[..]))
  {
    var box := FindBoundingBox(pts, width, height);
    FoldsOfThree(width - 1, 0, pts, 0);
    FoldsOfThree(height - 1, 0, pts, 1);
    FillBox(InsideOf(pts), image, width, height, box.lo, Vec2i(box.hi.x + 1, box.hi.y + 1), color);
  }

  /** A whole-number coordinate that is a convex blend of three whole numbers lies
      between their least and greatest. */
  lemma BlendBetween(p0: int, p1: int, p2: int, w: Vec3f, t: int)
    requires Convex(w)
    requires (p0 as real) * w.x + (p1 as real) * w.y + (p2 as real) * w.z == t as real
    ensures MinI(MinI(p0, p1), p2) <= t <= MaxI(MaxI(p0, p1), p2)
  {
    var m, n := MinI(MinI(p0, p1), p2), MaxI(MaxI(p0, p1), p2);
    BlendAtLeast(p0 as real, p1 as real, p2 as real, w.x, w.y, w.z, m as real);
    BlendAtMost(p0 as real, p1 as real, p2 as real, w.x, w.y, w.z, n as real);
  }

  /** A pixel of the image inside the closed triangle lies in its clamped box. */
  lemma InteriorInBox(pts: Corners, width: int, height: int, x: int, y: int)
    requires 0 <= x < width && 0 <= y < height && Area(pts) != 0.0
    requires Convex(ComputeBarycentric2D(x as real, y as real, pts).value)
    ensures var b := BoundingBox(pts, width, height);
      b.lo.x <= x <= b.hi.x && b.lo.y <= y <= b.hi.y
  {
    BarycentricReconstructs(x as real, y as real, pts);
    var w := ComputeBarycentric2D(x as real, y as real, pts).value;
    BlendBetween(pts[0].x, pts[1].x, pts[2].x, w, x);
    BlendBetween(pts[0].y, pts[1].y, pts[2].y, w, y);
    FoldsOfThree(width - 1, 0, pts, 0);
    FoldsOfThree(height - 1, 0, pts, 1);
  }

  /** The inclusive walk paints every pixel of the image that lies in the closed
      triangle: the clamped box loses none of them. */
  lemma TriangleCoversInterior(pts: Corners, width: int, height: int, color: Color, img: seq<Color>, x: int, y: int)
    requires |img| == width * height
    requires 0 <= x < width && 0 <= y < height && Area(pts) != 0.0
    requires Convex(ComputeBarycentric2D(x as real, y as real, pts).value)
    ensures 0 <= Idx(x, y, width) < |img|
    ensures PaintedInclusive(pts, width, height, color, img)[Idx(x, y, width)] == color
  {
    InsideTriangleIff(x, y, pts);
    InteriorInBox(pts, width, height, x, y);
    var b := BoundingBox(pts, width, height);
    FillAt(InsideOf(pts), b.lo, Vec2i(b.hi.x + 1, b.hi.y + 1), width, height, color, img, x, y);
  }

  /** The right-angled triangle (0,0), (3,0), (0,3). */
  function CornerTriangle(): Corners { [Vec2i(0, 0), Vec2i(3, 0), Vec2i(0, 3)] }

  lemma CornerWeights()
    ensures Weights(3.0, 0.0, Vec2f(0.0, 0.0), Vec2f(3.0, 0.0), Vec2f(0.0, 3.0)) == Some(Vec3f(0.0, 1.0, 0.0))
  {
  }

  lemma CornerInside(pts: Corners)
    requires pts == CornerTriangle()
    ensures InsideTriangle(3, 0, pts)
  {
    assert ToF(pts[0]) == Vec2f(0.0, 0.0) && ToF(pts[1]) == Vec2f(3.0, 0.0) && ToF(pts[2]) == Vec2f(0.0, 3.0);
    CornerWeights();
    assert ComputeBarycentric2D(3.0, 0.0, pts) == Some(Vec3f(0.0, 1.0, 0.0));
  }

  lemma CornerBox(pts: Corners)
    requires pts == CornerTriangle()
    ensures BoundingBox(pts, 4, 4) == IntBox(Vec2i(0, 0), Vec2i(3, 3))
  {
    FoldsOfThree(3, 0, pts, 0);
    FoldsOfThree(3, 0, pts, 1);
  }

  /** In a 4-by-4 image the half-open loops of `triangle` leave the triangle's own
      corner (3, 0) unpainted, although the inside test accepts it and it lies in the
      clamped box; the inclusive walk paints it. */
  lemma HalfOpenMissesCorner(color: Color, img: seq<Color>)
    requires |img| == 16
    ensures InsideTriangle(3, 0, CornerTriangle())
    ensures Painted(CornerTriangle(), 4, 4, color, img)[Idx(3, 0, 4)] == img[3]
    ensures PaintedInclusive(CornerTriangle(), 4, 4, color, img)[Idx(3, 0, 4)] == color
  {
    var pts := CornerTriangle();
    CornerInside(pts);
    CornerBox(pts);
    FillAt(InsideOf(pts), Vec2i(0, 0), Vec2i(3, 3), 4, 4, color, img, 3, 0);
    FillAt(InsideOf(pts), Vec2i(0, 0), Vec2i(4, 4), 4, 4, color, img, 3, 0);
  }
}
