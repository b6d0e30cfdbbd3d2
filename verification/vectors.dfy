/** Fixed-dimension vectors of the renderer (geometry.h), over real numbers
    instead of IEEE floats. */
module Vectors {

  /** Vec2<float>. The u/v and x/y member names alias the same two components. */
  datatype Vec2f = Vec2f(x: real, y: real) {
    function Plus(v: Vec2f): Vec2f { Vec2f(x + v.x, y + v.y) }
    function Minus(v: Vec2f): Vec2f { Vec2f(x - v.x, y - v.y) }
    function Scale(f: real): Vec2f { Vec2f(x * f, y * f) }
  }

  /** Vec2<int>: pixel coordinates. */
  datatype Vec2i = Vec2i(x: int, y: int) {
    function Plus(v: Vec2i): Vec2i { Vec2i(x + v.x, y + v.y) }
    function Minus(v: Vec2i): Vec2i { Vec2i(x - v.x, y - v.y) }
  }

  /** Vec3<float>. */
  datatype Vec3f = Vec3f(x: real, y: real, z: real) {
    function Plus(v: Vec3f): Vec3f { Vec3f(x + v.x, y + v.y, z + v.z) }
    function Minus(v: Vec3f): Vec3f { Vec3f(x - v.x, y - v.y, z - v.z) }
    function Scale(f: real): Vec3f { Vec3f(x * f, y * f, z * f) }

    /** `operator*(const Vec3&)`: the dot product. */
    function Dot(v: Vec3f): real { x * v.x + y * v.y + z * v.z }

    /** `operator^`: the cross product. */
    function Caret(v: Vec3f): Vec3f {
      Vec3f(y * v.z - z * v.y, z * v.x - x * v.z, x * v.y - y * v.x)
    }

    /** The member `cross`, written out a second time in the header. */
    function Cross(v: Vec3f): Vec3f {
      Vec3f(y * v.z - z * v.y, z * v.x - x * v.z, x * v.y - y * v.x)
    }

    /** `operator[](int)` on the raw component array. */
    function At(i: int): real
      requires 0 <= i < 3
    {
      if i == 0 then x else if i == 1 then y else z
    }

    /** The vector with component `i` replaced, as `v[i] = r` leaves it. */
    function With(i: int, r: real): (v: Vec3f)
      requires 0 <= i < 3
      ensures v.At(i) == r
      ensures forall j :: 0 <= j < 3 && j != i ==> v.At(j) == At(j)
    {
      if i == 0 then Vec3f(r, y, z) else if i == 1 then Vec3f(x, r, z) else Vec3f(x, y, r)
    }

    /** The quantity under the square root of `norm()`. */
    function NormSquared(): real { x * x + y * y + z * z }

    /** `n` is what `norm()` returns: the non-negative square root of NormSquared. */
    predicate IsNorm(n: real) { n >= 0.0 && n * n == NormSquared() }

    /** `normalize(l)`: the vector scaled by l / norm(). The header has no zero guard,
        so the norm must be non-zero; it is passed in as `norm` (see IsNorm). */
    function Normalize(l: real, norm: real): Vec3f
      requires IsNorm(norm) && norm != 0.0
    {
      Scale(l / norm)
    }
  }

  /** vec<4, float>. */
  type Vec4f = v: seq<real> | |v| == 4 witness [0.0, 0.0, 0.0, 0.0]

  /** `embed<4>(v)`: homogeneous promotion of a point, w = 1. */
  function Embed(v: Vec3f): (r: Vec4f)
    ensures r[0] == v.x && r[1] == v.y && r[2] == v.z && r[3] == 1.0
  {
    [v.x, v.y, v.z, 1.0]
  }

  /** The `vec<DIM, T>` default constructor: fills the component array from the top
      index down with T() = 0. */
  method NewVec(dim: nat) returns (v: seq<real>)
    ensures |v| == dim
    ensures forall i :: 0 <= i < dim ==> v[i] == 0.0
  {
    var data := new real[dim];
    var i := dim;
    while i > 0
      invariant 0 <= i <= dim
      invariant forall j :: i <= j < dim ==> data[j] == 0.0
    {
      i := i - 1;
      data[i] := 0.0;
    }
    v := data[..];
  }

  lemma CaretIsCross(a: Vec3f, b: Vec3f)
    ensures a.Caret(b) == a.Cross(b)
  {
  }

  lemma CrossAntiCommutative(a: Vec3f, b: Vec3f)
    ensures a.Caret(b) == b.Caret(a).Scale(-1.0)
  {
  }

  lemma CrossOrthogonal(a: Vec3f, b: Vec3f)
    ensures a.Dot(a.Caret(b)) == 0.0
    ensures b.Dot(a.Caret(b)) == 0.0
  {
  }

  lemma DotCommutative(a: Vec3f, b: Vec3f)
    ensures a.Dot(b) == b.Dot(a)
  {
  }

  lemma DotSelfNonNegative(a: Vec3f)
    ensures a.Dot(a) == a.NormSquared()
    ensures a.NormSquared() >= 0.0
  {
    SquareNonNegative(a.x);
    SquareNonNegative(a.y);
    SquareNonNegative(a.z);
  }

  lemma SquareNonNegative(r: real)
    ensures r * r >= 0.0
  {
    if r < 0.0 {
      var s := -r;
      assert s * s > 0.0;
      assert s * s == r * r;
    }
  }

  lemma PlusMinusCancel2(a: Vec2f, b: Vec2f)
    ensures a.Plus(b).Minus(b) == a
  {
  }

  lemma PlusMinusCancel3(a: Vec3f, b: Vec3f)
    ensures a.Plus(b).Minus(b) == a
  {
  }

  /** normalize(l) yields a vector of length l (its squared length is l * l),
      pointing the same way as the input. */
  lemma NormalizedLength(v: Vec3f, l: real, norm: real)
    requires v.IsNorm(norm) && norm != 0.0
    ensures v.Normalize(l, norm).NormSquared() == l * l
    ensures v.Normalize(l, norm).Caret(v) == Vec3f(0.0, 0.0, 0.0)
  {
    var k := l / norm;
    var r := v.Scale(k);
    calc {
      r.NormSquared();
      (k * k) * v.NormSquared();
      (k * k) * (norm * norm);
      (k * norm) * (k * norm);
      { assert k * norm == l; }
      l * l;
    }
  }
}
