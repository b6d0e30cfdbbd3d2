/** Integer Bresenham line drawing (`line5`).

    The line first swaps x and y when it is steep and orders its endpoints left
    to right; it then steps x one pixel at a time, keeping the doubled error
    term `error2` and moving y by one whenever the error passes dx. The image is
    a foreign object, so `Line5` returns the sequence of pixels it hands to
    `image.set`, in call order; `LinePixels` gives that sequence in closed form. */
module Line {
  import opened IntArith

  datatype Pixel = Pixel(x: int, y: int)

  function Abs(n: int): nat {
    if n < 0 then -n else n
  }

  /** The endpoints after the steep and ordering swaps; `steep` records whether
      x and y were exchanged. */
  datatype Segment = Segment(steep: bool, x0: int, y0: int, x1: int, y1: int) {
    function Dx(): int { x1 - x0 }
    function Dy(): int { y1 - y0 }
    ghost predicate Normal() { x0 <= x1 && Abs(Dy()) <= Dx() }
  }

  /** `image.set(y, x)` for a steep line, `image.set(x, y)` otherwise: back in the
      caller's orientation. */
  function Plot(steep: bool, x: int, y: int): Pixel {
    if steep then Pixel(y, x) else Pixel(x, y)
  }

  /** The steep swap (when |x0 - x1| < |y0 - y1|) followed by the ordering swap
      (when x0 > x1). It keeps the two endpoints, only relabelling them. */
  function Normalize(x0: int, y0: int, x1: int, y1: int): (s: Segment)
    ensures s.Normal()
    ensures {Plot(s.steep, s.x0, s.y0), Plot(s.steep, s.x1, s.y1)} == {Pixel(x0, y0), Pixel(x1, y1)}
  {
    var steep := Abs(x0 - x1) < Abs(y0 - y1);
    var a0 := if steep then y0 else x0;
    var b0 := if steep then x0 else y0;
    var a1 := if steep then y1 else x1;
    var b1 := if steep then x1 else y1;
    if a0 > a1 then Segment(steep, a1, b1, a0, b0) else Segment(steep, a0, b0, a1, b1)
  }

  /** `y1 > y0 ? 1 : -1` */
  function Dir(s: Segment): int {
    if s.y1 > s.y0 then 1 else -1
  }

  /** y after n steps of `Dir(s)` from y0. */
  function Toward(s: Segment, n: int): int {
    if s.y1 > s.y0 then s.y0 + n else s.y0 - n
  }

  /** How many times y has moved when the k-th pixel of the segment is plotted:
      the unique count whose error term lies in (-dx, dx]. */
  function Offset(s: Segment, k: nat): int
    requires s.Normal()
  {
    if s.Dx() == 0 then 0 else (2 * k * Abs(s.Dy()) + s.Dx() - 1) / (2 * s.Dx())
  }

  /** The error2 value the loop holds after it has plotted pixel k - 1. */
  function Error(s: Segment, k: nat): int
    requires s.Normal()
  {
    2 * k * Abs(s.Dy()) - 2 * s.Dx() * Offset(s, k)
  }

  /** Pixel k of a normalised segment: x advanced by k, y by Offset(k) towards y1. */
  function PixelAt(s: Segment, k: nat): Pixel
    requires s.Normal()
  {
    Plot(s.steep, s.x0 + k, Toward(s, Offset(s, k)))
  }

  function Pixels(s: Segment): (r: seq<Pixel>)
    requires s.Normal()
  {
    seq(s.Dx() + 1, k requires 0 <= k <= s.Dx() => PixelAt(s, k))
  }

  /** Everything `line5(x0, y0, x1, y1)` plots, in plotting order. */
  function LinePixels(x0: int, y0: int, x1: int, y1: int): seq<Pixel> {
    Pixels(Normalize(x0, y0, x1, y1))
  }

  /** `line5`: the swaps, then the integer error loop. */
  method Line5(x0: int, y0: int, x1: int, y1: int) returns (plotted: seq<Pixel>)
    ensures plotted == LinePixels(x0, y0, x1, y1)
  {
    var steep := false;
    var ax0, ay0, ax1, ay1 := x0, y0, x1, y1;
    if Abs(ax0 - ax1) < Abs(ay0 - ay1) {
      ax0, ay0 := ay0, ax0;
      ax1, ay1 := ay1, ax1;
      steep := true;
    }
    if ax0 > ax1 {
      ax0, ax1 := ax1, ax0;
      ay0, ay1 := ay1, ay0;
    }
    assert Segment(steep, ax0, ay0, ax1, ay1) == Normalize(x0, y0, x1, y1);
    plotted := Walk(steep, ax0, ay0, ax1, ay1);
  }

  /** The loop of `line5` over a normalised segment: x steps from x0 to x1; error2
      grows by 2|dy| per pixel and, when it passes dx, y moves one step towards y1
      and error2 drops by 2 dx. */
  method Walk(steep: bool, ax0: int, ay0: int, ax1: int, ay1: int) returns (plotted: seq<Pixel>)
    requires Segment(steep, ax0, ay0, ax1, ay1).Normal()
    ensures plotted == Pixels(Segment(steep, ax0, ay0, ax1, ay1))
  {
    ghost var s := Segment(steep, ax0, ay0, ax1, ay1);
    var dx := ax1 - ax0;
    var dy := ay1 - ay0;
    var derror2 := Abs(dy) * 2;
    var error2 := 0;
    var y := ay0;
    ghost var steps := 0;
    plotted := [];
    var x := ax0;
    OffsetBounds(s, 0);
    while x <= ax1
      invariant ax0 <= x <= ax1 + 1
      invariant |plotted| == x - ax0
      invariant forall i :: 0 <= i < |plotted| ==> plotted[i] == PixelAt(s, i)
      invariant steps == Offset(s, x - ax0)
      invariant error2 == Error(s, x - ax0)
      invariant y == Toward(s, steps)
    {
      ghost var k := x - ax0;
      assert Plot(steep, x, y) == PixelAt(s, k);
      if steep {
        plotted := plotted + [Pixel(y, x)];
      } else {
        plotted := plotted + [Pixel(x, y)];
      }
      ErrorStep(s, k, error2 + derror2);
      error2 := error2 + derror2;
      if error2 > dx {
        y := y + (if ay1 > ay0 then 1 else -1);
        error2 := error2 - dx * 2;
        steps := steps + 1;
      }
      x := x + 1;
    }
  }

  // ---------------------------------------------------------------------------
  // Arithmetic of the error term

  /** The error term after pixel k lies in (-dx, dx] (it is 0 for a single-pixel
      line), which pins Offset(k) down uniquely. */
  lemma OffsetBounds(s: Segment, k: nat)
    requires s.Normal()
    ensures s.Dx() > 0 ==> -s.Dx() < Error(s, k) <= s.Dx()
    ensures s.Dx() == 0 ==> Error(s, k) == 0
  {
    if s.Dx() > 0 {
      var n, d := 2 * k * Abs(s.Dy()) + s.Dx() - 1, 2 * s.Dx();
      var q := n / d;
      assert n == d * q + n % d && 0 <= n % d < d;
    } else {
      assert Abs(s.Dy()) == 0;
    }
  }

  /** One loop iteration: adding 2|dy| and, when the error passes dx, moving y by
      one and subtracting 2 dx, gives exactly Offset and Error of the next pixel. */
  lemma OffsetStep(s: Segment, k: nat)
    requires s.Normal()
    ensures Offset(s, k + 1) == Offset(s, k) + (if Error(s, k) + 2 * Abs(s.Dy()) > s.Dx() then 1 else 0)
    ensures Error(s, k + 1) == Error(s, k) + 2 * Abs(s.Dy()) - (if Error(s, k) + 2 * Abs(s.Dy()) > s.Dx() then 2 * s.Dx() else 0)
  {
    OffsetBounds(s, k);
    if s.Dx() > 0 {
      var dx, ady := s.Dx(), Abs(s.Dy());
      var e := Error(s, k) + 2 * ady;
      var q := Offset(s, k) + (if e > dx then 1 else 0);
      var n := 2 * (k + 1) * ady + dx - 1;
      assert 2 * (k + 1) * ady == 2 * k * ady + 2 * ady;
      assert n - 2 * dx * q == e - (if e > dx then 2 * dx else 0) + dx - 1;
      DivUnique(n, 2 * dx, q);
    }
  }

  /** The step in the form the loop takes it: the error after adding 2|dy| decides
      whether y moves. */
  lemma ErrorStep(s: Segment, k: nat, e: int)
    requires s.Normal() && e == Error(s, k) + 2 * Abs(s.Dy())
    ensures e > s.Dx() ==> Offset(s, k + 1) == Offset(s, k) + 1 && Error(s, k + 1) == e - 2 * s.Dx()
    ensures e <= s.Dx() ==> Offset(s, k + 1) == Offset(s, k) && Error(s, k + 1) == e
  {
    OffsetStep(s, k);
  }

  // ---------------------------------------------------------------------------
  // Properties of what is plotted

  /** The coordinate the loop steps along: y for a steep line, x otherwise. */
  function Major(steep: bool, p: Pixel): int {
    if steep then p.y else p.x
  }

  /** Exactly x1 - x0 + 1 pixels, one per major-axis position from x0 to x1, in
      increasing order. */
  lemma PixelsOnePerColumn(x0: int, y0: int, x1: int, y1: int)
    ensures var s := Normalize(x0, y0, x1, y1);
      var p := LinePixels(x0, y0, x1, y1);
      |p| == s.x1 - s.x0 + 1 &&
      forall k :: 0 <= k < |p| ==> Major(s.steep, p[k]) == s.x0 + k
  {
  }

  /** Offset starts at 0, ends at |dy|, and grows by 0 or 1 per pixel. */
  lemma {:induction false} OffsetRange(s: Segment, k: nat)
    requires s.Normal() && k <= s.Dx()
    ensures 0 <= Offset(s, k) <= Abs(s.Dy())
    ensures Offset(s, 0) == 0 && Offset(s, s.Dx()) == Abs(s.Dy())
    ensures k < s.Dx() ==> 0 <= Offset(s, k + 1) - Offset(s, k) <= 1
  {
    if s.Dx() > 0 {
      var d := 2 * s.Dx();
      DivUnique(s.Dx() - 1, d, 0);
      assert 2 * s.Dx() * Abs(s.Dy()) + s.Dx() - 1 == d * Abs(s.Dy()) + (s.Dx() - 1);
      DivUnique(2 * s.Dx() * Abs(s.Dy()) + s.Dx() - 1, d, Abs(s.Dy()));
      OffsetStep(s, k);
      OffsetMonotone(s, k, s.Dx());
      OffsetMonotone(s, 0, k);
    }
  }

  lemma {:induction false} OffsetMonotone(s: Segment, i: nat, j: nat)
    requires s.Normal() && i <= j
    ensures Offset(s, i) <= Offset(s, j)
    decreases j - i
  {
    if i < j {
      OffsetStep(s, i);
      OffsetMonotone(s, i + 1, j);
    }
  }

  /** In the segment's own orientation, y starts at y0, ends at y1, and moves by at
      most one per step, always towards y1. */
  lemma MinorCoordinate(s: Segment, k: nat)
    requires s.Normal() && k <= s.Dx()
    ensures Toward(s, Offset(s, 0)) == s.y0
    ensures Toward(s, Offset(s, s.Dx())) == s.y1
    ensures k < s.Dx() ==> var step := Toward(s, Offset(s, k + 1)) - Toward(s, Offset(s, k));
      (step == 0 || step == Dir(s)) && (step != 0 ==> s.y1 != s.y0)
  {
    OffsetRange(s, k);
  }

  /** The first pixel is (x0, y0) and the last is (x1, y1) of the normalised
      segment, so both of the caller's endpoints are plotted. */
  lemma EndpointsPlotted(x0: int, y0: int, x1: int, y1: int)
    ensures Pixel(x0, y0) in LinePixels(x0, y0, x1, y1)
    ensures Pixel(x1, y1) in LinePixels(x0, y0, x1, y1)
  {
    var s := Normalize(x0, y0, x1, y1);
    var p := LinePixels(x0, y0, x1, y1);
    MinorCoordinate(s, 0);
    assert p[0] == Plot(s.steep, s.x0, s.y0);
    assert p[s.Dx()] == Plot(s.steep, s.x1, s.y1);
    assert Pixel(x0, y0) in {Plot(s.steep, s.x0, s.y0), Plot(s.steep, s.x1, s.y1)};
    assert Pixel(x1, y1) in {Plot(s.steep, s.x0, s.y0), Plot(s.steep, s.x1, s.y1)};
  }

  /** Drawing from a to b or from b to a plots the same pixels in the same order. */
  lemma LineSymmetric(x0: int, y0: int, x1: int, y1: int)
    ensures LinePixels(x0, y0, x1, y1) == LinePixels(x1, y1, x0, y0)
  {
    assert Normalize(x0, y0, x1, y1) == Normalize(x1, y1, x0, y0);
  }

  /** Every plotted pixel is within half a pixel of the ideal line along the minor
      axis: |2 dx (y - y0) - 2 k dy| <= dx in the segment's own orientation. */
  lemma CloseToIdealLine(s: Segment, k: nat)
    requires s.Normal() && k <= s.Dx()
    ensures -s.Dx() <= 2 * s.Dx() * (Toward(s, Offset(s, k)) - s.y0) - 2 * k * s.Dy() <= s.Dx()
  {
    OffsetBounds(s, k);
    var o := Offset(s, k);
    SignedError(s.Dx(), s.Dy(), k, o, Error(s, k));
    if s.y1 > s.y0 {
      assert Toward(s, o) - s.y0 == o;
    } else {
      assert Toward(s, o) - s.y0 == -o;
    }
  }

  /** The error term with the sign of dy put back. */
  lemma SignedError(dx: int, dy: int, k: int, o: int, e: int)
    requires e == 2 * k * Abs(dy) - 2 * dx * o && -dx <= e <= dx
    ensures dy > 0 ==> -dx <= 2 * dx * o - 2 * k * dy <= dx
    ensures dy <= 0 ==> -dx <= 2 * dx * -o - 2 * k * dy <= dx
  {
    if dy <= 0 {
      assert 2 * dx * -o == -(2 * dx * o);
      assert 2 * k * dy == -(2 * k * Abs(dy));
    }
  }
}
