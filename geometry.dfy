/**
 * Face geometry of the cubemap: the map from a face number and a pixel of
 * that face to a direction on the surface of the cube [-1, 1]^3.
 *
 * Both copies of `outImgToXYZ` (conv/convert.go and img/convert.go) share
 * the face table below; they differ only for an unknown face number.
 */
module Geometry {
  import opened Wrappers

  /** A three-component vector over the reals, standing in for `float64` triples. */
  datatype Vec3 = Vec3(x: real, y: real, z: real)

  const Zero := Vec3(0.0, 0.0, 0.0)

  /** Faces are numbered back = 0, left = 1, front = 2, right = 3, top = 4, bottom = 5. */
  const FaceCount := 6

  predicate IsFace(face: int) {
    0 <= face < FaceCount
  }

  function Abs(x: real): real {
    if x < 0.0 then -x else x
  }

  function MaxReal(x: real, y: real): real {
    if x < y then y else x
  }

  function MinReal(x: real, y: real): real {
    if x < y then x else y
  }

  /** The largest absolute component of v (its Chebyshev norm). */
  function MaxNorm(v: Vec3): real {
    MaxReal(Abs(v.x), MaxReal(Abs(v.y), Abs(v.z)))
  }

  /** The three coordinate axes. */
  datatype Axis = X | Y | Z

  function Component(v: Vec3, axis: Axis): real {
    match axis
    case X => v.x
    case Y => v.y
    case Z => v.z
  }

  /** The axis a face is perpendicular to: back/front x, left/right y, top/bottom z. */
  function NormalAxis(face: int): Axis
    requires IsFace(face)
  {
    if face == 0 || face == 2 then X else if face == 1 || face == 3 then Y else Z
  }

  /** Which end of its axis a face sits at: back, left and bottom at -1, the others at +1. */
  function NormalSign(face: int): (s: real)
    requires IsFace(face)
    ensures s == 1.0 || s == -1.0
  {
    if face == 0 || face == 1 || face == 5 then -1.0 else 1.0
  }

  /** The outward unit normal of a face: its sign on its own axis and 0 elsewhere. */
  function Normal(face: int): (n: Vec3)
    requires IsFace(face)
    ensures Component(n, NormalAxis(face)) == NormalSign(face)
    ensures forall axis :: axis != NormalAxis(face) ==> Component(n, axis) == 0.0
    ensures MaxNorm(n) == 1.0
  {
    match face
    case 0 => Vec3(-1.0, 0.0, 0.0)
    case 1 => Vec3(0.0, -1.0, 0.0)
    case 2 => Vec3(1.0, 0.0, 0.0)
    case 3 => Vec3(0.0, 1.0, 0.0)
    case 4 => Vec3(0.0, 0.0, 1.0)
    case 5 => Vec3(0.0, 0.0, -1.0)
  }

  /** The per-pixel step `inLen = 2 / edge`. */
  function InLen(edge: int): (r: real)
    requires edge >= 1
    ensures 0.0 < r <= 2.0
    ensures r * edge as real == 2.0
  {
    2.0 / edge as real
  }

  /**
   * The face-plane coordinate `inLen * n - 1` of pixel column or row n:
   * the pixels 0 .. edge-1 sweep [-1, 1), starting at -1, and an even
   * edge puts pixel edge/2 exactly at the centre.
   */
  function Coord(n: int, edge: int): (c: real)
    requires edge >= 1
    ensures 0 <= n < edge ==> -1.0 <= c < 1.0
    ensures n == 0 ==> c == -1.0
    ensures 2 * n == edge ==> c == 0.0
  {
    var step := InLen(edge);
    if 0 <= n < edge then
      StepBelow(step, n as real, edge as real);
      step * n as real - 1.0
    else if 2 * n == edge then
      StepHalf(step, n as real, edge as real);
      step * n as real - 1.0
    else
      step * n as real - 1.0
  }

  /** A positive step times m in [0, e) lies in [0, step * e). */
  lemma StepBelow(step: real, m: real, e: real)
    requires step > 0.0 && 0.0 <= m < e
    ensures 0.0 <= step * m < step * e
  {
    assert step * (e - m) > 0.0;
    assert step * (e - m) == step * e - step * m;
  }

  /** A step times half of e is half of step times e. */
  lemma StepHalf(step: real, m: real, e: real)
    requires 2.0 * m == e
    ensures step * e == 2.0 * (step * m)
  {
  }

  /**
   * The fixed sign/axis table: face `face` sends the plane coordinates
   * (a, b) to a point on the plane of that face, the centre
   * (0, 0) to the face's normal, distinct (a, b) to distinct points, and
   * [-1, 1]^2 into the face of the cube itself.
   */
  function FaceTable(face: int, a: real, b: real): (v: Vec3)
    requires IsFace(face)
    ensures Component(v, NormalAxis(face)) == NormalSign(face)
    ensures a == 0.0 && b == 0.0 ==> v == Normal(face)
    ensures Abs(a) <= 1.0 && Abs(b) <= 1.0 ==> MaxNorm(v) == 1.0
  {
    match face
    case 0 => Vec3(-1.0, -a, -b)   // back
    case 1 => Vec3(a, -1.0, -b)    // left
    case 2 => Vec3(1.0, a, -b)     // front
    case 3 => Vec3(-a, 1.0, -b)    // right
    case 4 => Vec3(b, a, 1.0)      // top
    case 5 => Vec3(-b, a, -1.0)    // bottom
  }

  /** No face folds or collapses: distinct plane coordinates give distinct directions. */
  lemma FaceTableInjective(face: int, a: real, b: real, a': real, b': real)
    requires IsFace(face) && FaceTable(face, a, b) == FaceTable(face, a', b')
    ensures a == a' && b == b'
  {
  }

  /**
   * `outImgToXYZ` of conv/convert.go: the direction of pixel (i, j) of face
   * `face`; any other face number ends the process with "Wrong face".
   */
  function OutImgToXYZ(i: int, j: int, face: int, edge: int): (r: Result<Vec3>)
    requires edge >= 1
    ensures r.Success? <==> IsFace(face)
    ensures !IsFace(face) ==> r == Failure("Wrong face")
    ensures r.Success? && 0 <= i < edge && 0 <= j < edge ==> MaxNorm(r.value) == 1.0
    ensures r.Success? ==> Component(r.value, NormalAxis(face)) == NormalSign(face)
  {
    if IsFace(face) then Success(FaceTable(face, Coord(i, edge), Coord(j, edge)))
    else Failure("Wrong face")
  }

  /**
   * `outImgToXYZ` of img/convert.go: the same table for faces 0..5, while an
   * unknown face yields the zero vector instead of terminating.
   */
  function OutImgToXYZLegacy(i: int, j: int, face: int, edge: int): (v: Vec3)
    requires edge >= 1
    ensures IsFace(face) ==> OutImgToXYZ(i, j, face, edge) == Success(v)
    ensures !IsFace(face) ==> OutImgToXYZ(i, j, face, edge).Failure? && v == Zero
  {
    if IsFace(face) then FaceTable(face, Coord(i, edge), Coord(j, edge)) else Zero
  }

  /**
   * For an even edge, the centre pixel (edge/2, edge/2) of every face looks
   * straight along that face's normal.
   */
  lemma CentrePixel(face: int, edge: int)
    requires IsFace(face) && edge >= 2 && edge % 2 == 0
    ensures OutImgToXYZ(edge / 2, edge / 2, face, edge) == Success(Normal(face))
  {
    assert Coord(edge / 2, edge / 2 * 2) == 0.0;
  }

  /** The six faces have six distinct normals, one per signed axis. */
  lemma NormalsDistinct(f: int, g: int)
    requires IsFace(f) && IsFace(g) && f != g
    ensures NormalAxis(f) != NormalAxis(g) || NormalSign(f) != NormalSign(g)
    ensures Normal(f) != Normal(g)
  {
  }
}
