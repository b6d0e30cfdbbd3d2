/** The Gouraud shader: a per-vertex light intensity stored in a three-slot varying and
    blended per fragment with the barycentric weights, and the per-face driver that
    feeds it. */
module Gouraud {
  import opened Vectors
  import opened Matrices
  import opened Raster

  /** The mesh as the shader sees it: for every face, the positions and the normals of
      its three corners, as `Model::vert(iface, nthvert)` and
      `Model::normal(iface, nthvert)` return them. */
  datatype Mesh = Mesh(positions: seq<seq<Vec3f>>, normals: seq<seq<Vec3f>>) {
    predicate Valid()
    {
      |positions| == |normals| &&
      forall i :: 0 <= i < |positions| ==> |positions[i]| == 3 && |normals[i]| == 3
    }

    function NFaces(): nat { |positions| }
  }

  /** The light a corner receives: the normal's dot product with the light direction,
      with negative values cut to zero. */
  function CornerIntensity(mesh: Mesh, iface: int, nthvert: int, light: Vec3f): (r: real)
    requires mesh.Valid() && 0 <= iface < mesh.NFaces() && 0 <= nthvert < 3
    ensures r >= 0.0
    ensures r >= mesh.normals[iface][nthvert].Dot(light)
  {
    MaxR(0.0, mesh.normals[iface][nthvert].Dot(light))
  }

  /** The screen position of a corner: `transfer * embed<4>(v)`. */
  function CornerPosition(mesh: Mesh, iface: int, nthvert: int, transfer: Matrix): Vec4f
    requires mesh.Valid() && 0 <= iface < mesh.NFaces() && 0 <= nthvert < 3
    requires transfer.Valid() && transfer.rows >= 4 && transfer.cols >= 4
  {
    Apply(transfer, Embed(mesh.positions[iface][nthvert]))
  }

  /** `GouraudShader`: the only state is the varying `varing_intensity`. */
  class GouraudShader {
    var varyingIntensity: Vec3f

    /** The default constructor of the varying zeroes it. */
    constructor()
      ensures varyingIntensity == Vec3f(0.0, 0.0, 0.0)
    {
      varyingIntensity := Vec3f(0.0, 0.0, 0.0);
    }

    /** `vertex`: the face and slot are asserted in range; the corner's intensity goes
        into slot `nthvert`, the other slots keep theirs, and the corner's position is
        returned through `transfer` (the product of viewport, projection and model-view,
        handed in). */
    method Vertex(mesh: Mesh, light: Vec3f, transfer: Matrix, iface: int, nthvert: int) returns (r: Vec4f)
      requires mesh.Valid() && 0 <= iface < mesh.NFaces() && 0 <= nthvert < 3
      requires transfer.Valid() && transfer.rows >= 4 && transfer.cols >= 4
      modifies this
      ensures varyingIntensity == old(varyingIntensity).With(nthvert, CornerIntensity(mesh, iface, nthvert, light))
      ensures r == CornerPosition(mesh, iface, nthvert, transfer)
    {
      var n := mesh.normals[iface][nthvert];
      var intensity := MaxR(0.0, n.Dot(light));
      varyingIntensity := varyingIntensity.With(nthvert, intensity);
      var v := mesh.positions[iface][nthvert];
      r := MultiplyVec(transfer, Embed(v));
    }

    /** `fragment`: never discards; the intensity handed on is the varying blended with
        the barycentric weights. The white color scaled by it is left to the image. */
    method Fragment(bar: Vec3f) returns (discard: bool, intensity: real)
      ensures !discard
      ensures intensity == varyingIntensity.x * bar.x + varyingIntensity.y * bar.y + varyingIntensity.z * bar.z
    {
      intensity := varyingIntensity.Dot(bar);
      discard := false;
    }
  }

  /** The varying after `vertex` has run for slots 0, 1 and 2 of a face. */
  function FaceIntensities(mesh: Mesh, iface: int, light: Vec3f): (r: Vec3f)
    requires mesh.Valid() && 0 <= iface < mesh.NFaces()
    ensures forall j :: 0 <= j < 3 ==> r.At(j) == CornerIntensity(mesh, iface, j, light)
  {
    Vec3f(CornerIntensity(mesh, iface, 0, light), CornerIntensity(mesh, iface, 1, light), CornerIntensity(mesh, iface, 2, light))
  }

  /** The per-face driver: a fresh shader per face, `vertex` for slots 0, 1, 2, and the
      screen coordinates and the shader handed to the (undefined) triangle routine,
      recorded here per face. */
  method ShadeFaces(mesh: Mesh, light: Vec3f, transfer: Matrix) returns (coords: seq<seq<Vec4f>>, varyings: seq<Vec3f>)
    requires mesh.Valid()
    requires transfer.Valid() && transfer.rows >= 4 && transfer.cols >= 4
    ensures |coords| == |varyings| == mesh.NFaces()
    ensures forall i :: 0 <= i < mesh.NFaces() ==> |coords[i]| == 3
    ensures forall i, j :: 0 <= i < mesh.NFaces() && 0 <= j < 3 ==> coords[i][j] == CornerPosition(mesh, i, j, transfer)
    ensures forall i :: 0 <= i < mesh.NFaces() ==> varyings[i] == FaceIntensities(mesh, i, light)
  {
    coords, varyings := [], [];
    for i := 0 to mesh.NFaces()
      invariant |coords| == |varyings| == i
      invariant forall f :: 0 <= f < i ==> |coords[f]| == 3
      invariant forall f, j :: 0 <= f < i && 0 <= j < 3 ==> coords[f][j] == CornerPosition(mesh, f, j, transfer)
      invariant forall f :: 0 <= f < i ==> varyings[f] == FaceIntensities(mesh, f, light)
    {
      var shader := new GouraudShader();
      var screen: seq<Vec4f> := [];
      for j := 0 to 3
        invariant |screen| == j
        invariant forall s :: 0 <= s < j ==> screen[s] == CornerPosition(mesh, i, s, transfer)
        invariant forall s :: 0 <= s < j ==> shader.varyingIntensity.At(s) == CornerIntensity(mesh, i, s, light)
      {
        var c := shader.Vertex(mesh, light, transfer, i, j);
        screen := screen + [c];
      }
      assert shader.varyingIntensity == FaceIntensities(mesh, i, light) by {
        var v := shader.varyingIntensity;
        assert v.At(0) == v.x && v.At(1) == v.y && v.At(2) == v.z;
      }
      coords, varyings := coords + [screen], varyings + [shader.varyingIntensity];
    }
  }

  /** Every slot of a face's varying is lit or zero, never negative. */
  lemma FaceIntensitiesNonNegative(mesh: Mesh, iface: int, light: Vec3f)
    requires mesh.Valid() && 0 <= iface < mesh.NFaces()
    ensures var v := FaceIntensities(mesh, iface, light); v.x >= 0.0 && v.y >= 0.0 && v.z >= 0.0
  {
    var v := FaceIntensities(mesh, iface, light);
    assert v.x == v.At(0) && v.y == v.At(1) && v.z == v.At(2);
  }

  /** A fragment inside the face (convex weights) gets an intensity between the least
      and the greatest of its corners'. */
  lemma FragmentIntensityWithin(varying: Vec3f, bar: Vec3f, lo: real, hi: real)
    requires Convex(bar)
    requires lo <= varying.x <= hi && lo <= varying.y <= hi && lo <= varying.z <= hi
    ensures lo <= varying.Dot(bar) <= hi
  {
    BlendAtLeast(varying.x, varying.y, varying.z, bar.x, bar.y, bar.z, lo);
    BlendAtMost(varying.x, varying.y, varying.z, bar.x, bar.y, bar.z, hi);
  }

  /** At a corner of the face the fragment reproduces that corner's intensity. */
  lemma FragmentAtCorner(varying: Vec3f, j: int)
    requires 0 <= j < 3
    ensures varying.Dot(if j == 0 then Vec3f(1.0, 0.0, 0.0) else if j == 1 then Vec3f(0.0, 1.0, 0.0) else Vec3f(0.0, 0.0, 1.0))
      == varying.At(j)
  {
  }
}
