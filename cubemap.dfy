/**
 * Rendering the six faces: the per-pixel colour, the worker `convert` that
 * fills the faces owning a range of flat column indices, and the dispatchers
 * `ConvertEquirectangularToCubeMap` (conv/convert.go) and `ConverBack`
 * (img/convert.go), with the goroutine fan-out run one worker after another.
 */
module Cubemap {
  import opened Geometry
  import opened Bilinear

  /** Fractional source coordinates (uf, vf). */
  datatype SourceCoords = SourceCoords(u: real, v: real)

  /**
   * The spherical mapping of `interpolateXYZtoColor` (atan2, hypot and the
   * scaling by sh / pi): a direction and the source height give (uf, vf).
   */
  type Sphere = (Vec3, int) -> SourceCoords

  /** A spherical mapping that, like the real one, never yields negative coordinates. */
  ghost predicate NonNegative(sphere: Sphere) {
    forall v, sh :: 0.0 <= sphere(v, sh).u && 0.0 <= sphere(v, sh).v
  }

  /** The colour returned by `interpolateXYZtoColor`, each channel a `uint32`. */
  datatype Color32 = Color32(r: int, g: int, b: int)

  /** An output pixel `color.RGBA`. */
  datatype Rgba = Rgba(r: byte, g: byte, b: byte, a: byte)

  /** The zero pixel `image.NewRGBA` starts from. */
  const Cleared := Rgba(0, 0, 0, 0)

  /** Which copy of the engine: conv/convert.go or the older img/convert.go. */
  datatype Version = Current | Legacy

  /**
   * The direction each copy's `convert` computes for pixel (i, j) of a face;
   * both copies agree with the shared face table on every face.
   */
  function Direction(version: Version, i: int, j: int, face: int, edge: int): (v: Vec3)
    requires edge >= 1 && IsFace(face)
    ensures v == FaceTable(face, Coord(i, edge), Coord(j, edge))
  {
    match version
    case Current => OutImgToXYZ(i, j, face, edge).value
    case Legacy => OutImgToXYZLegacy(i, j, face, edge)
  }

  /**
   * `interpolateXYZtoColor`: the blend at the coordinates the spherical
   * mapping gives, each channel converted with `uint32`.
   */
  function InterpolateXYZtoColor(xyz: Vec3, img: Raster, sw: int, sh: int, sphere: Sphere): (c: Color32)
    ensures 0 <= c.r < 0x1_0000_0000 && 0 <= c.g < 0x1_0000_0000 && 0 <= c.b < 0x1_0000_0000
  {
    var uv := sphere(xyz, sh);
    var v := Blend(uv.u, uv.v, img, sw, sh);
    Color32(Uint32Of(v.x), Uint32Of(v.y), Uint32Of(v.z))
  }

  /**
   * For non-negative coordinates over a non-empty source each channel of
   * `interpolateXYZtoColor` is the floor of the blended value, so it stays
   * within [0, 255].
   */
  lemma InterpolateChannels(xyz: Vec3, img: Raster, sw: int, sh: int, sphere: Sphere)
    ensures var c := InterpolateXYZtoColor(xyz, img, sw, sh, sphere);
      var uv := sphere(xyz, sh);
      sw >= 1 && sh >= 1 && 0.0 <= uv.u && 0.0 <= uv.v ==>
        var v := Blend(uv.u, uv.v, img, sw, sh);
        && c.r <= 255 && c.g <= 255 && c.b <= 255
        && c.r == v.x.Floor && c.g == v.y.Floor && c.b == v.z.Floor
  {
    var uv := sphere(xyz, sh);
    if sw >= 1 && sh >= 1 && 0.0 <= uv.u && 0.0 <= uv.v {
      BlendInterpolates(uv.u, uv.v, img, sw, sh);
    }
  }

  /**
   * The pixel `convert` writes at (i, j) of face `face`: the interpolated
   * colour with each channel narrowed by `uint8`, and alpha 255. It is the
   * same for both copies of the engine.
   */
  function FacePixel(version: Version, face: int, i: int, j: int, edge: int,
                     img: Raster, sw: int, sh: int, sphere: Sphere): (p: Rgba)
    requires edge >= 1 && IsFace(face)
    ensures p.a == 255
  {
    var clr := InterpolateXYZtoColor(Direction(version, i, j, face, edge), img, sw, sh, sphere);
    Rgba(Uint8Of(clr.r), Uint8Of(clr.g), Uint8Of(clr.b), 255)
  }

  /**
   * For non-negative source coordinates over a non-empty source, the
   * channels of a face pixel are the floors of the blend at the pixel's
   * direction: the `uint8` narrowing loses nothing.
   */
  lemma FacePixelChannels(version: Version, face: int, i: int, j: int, edge: int,
                          img: Raster, sw: int, sh: int, sphere: Sphere)
    requires edge >= 1 && IsFace(face)
    ensures var p := FacePixel(version, face, i, j, edge, img, sw, sh, sphere);
      var uv := sphere(FaceTable(face, Coord(i, edge), Coord(j, edge)), sh);
      sw >= 1 && sh >= 1 && 0.0 <= uv.u && 0.0 <= uv.v ==>
        var v := Blend(uv.u, uv.v, img, sw, sh);
        p.r as int == v.x.Floor && p.g as int == v.y.Floor && p.b as int == v.z.Floor
  {
    var xyz := Direction(version, i, j, face, edge);
    var clr := InterpolateXYZtoColor(xyz, img, sw, sh, sphere);
    InterpolateChannels(xyz, img, sw, sh, sphere);
    assert FacePixel(version, face, i, j, edge, img, sw, sh, sphere)
        == Rgba(Uint8Of(clr.r), Uint8Of(clr.g), Uint8Of(clr.b), 255);
  }

  /**
   * A spherical mapping that never yields negative source coordinates
   * (as the spherical step of `interpolateXYZtoColor` does) over a non-empty source: every face pixel is
   * opaque and its channels are the floors of the blend at its direction.
   */
  lemma MappedPixelChannels(version: Version, face: int, i: int, j: int, edge: int,
                            img: Raster, sphere: Sphere)
    requires NonNegative(sphere) && img.width >= 1 && img.height >= 1
    requires edge >= 1 && IsFace(face)
    ensures var p := FacePixel(version, face, i, j, edge, img, img.width, img.height, sphere);
      var uv := sphere(FaceTable(face, Coord(i, edge), Coord(j, edge)), img.height);
      var v := Blend(uv.u, uv.v, img, img.width, img.height);
      && p.a == 255
      && p.r as int == v.x.Floor && p.g as int == v.y.Floor && p.b as int == v.z.Floor
  {
    FacePixelChannels(version, face, i, j, edge, img, img.width, img.height, sphere);
  }

  /**
   * The two copies of the engine compute the same pixel for every face:
   * they differ only on face numbers outside 0..5, which `convert` never
   * produces.
   */
  lemma VersionsAgree(face: int, i: int, j: int, edge: int, img: Raster, sw: int, sh: int, sphere: Sphere)
    requires edge >= 1 && IsFace(face)
    ensures FacePixel(Current, face, i, j, edge, img, sw, sh, sphere)
         == FacePixel(Legacy, face, i, j, edge, img, sw, sh, sphere)
  {
  }

  /**
   * A source whose pixels all have one colour gives every pixel of every
   * face that colour, fully opaque, whatever the spherical mapping.
   */
  lemma UniformSource(img: Raster, c: Rgb, version: Version, face: int, i: int, j: int, edge: int, sphere: Sphere)
    requires img.Valid() && img.width >= 1 && img.height >= 1
    requires forall y, x | 0 <= y < img.height && 0 <= x < img.width :: img.rows[y][x] == c
    requires edge >= 1 && IsFace(face)
    ensures FacePixel(version, face, i, j, edge, img, img.width, img.height, sphere) == Rgba(c.r, c.g, c.b, 255)
  {
    var xyz := Direction(version, i, j, face, edge);
    var uv := sphere(xyz, img.height);
    var n := Locate(uv.u, uv.v, img.width, img.height);
    var p := Vec3(c.r as int as real, c.g as int as real, c.b as int as real);
    assert Read(img, n.ui, n.vi) == p && Read(img, n.u2, n.vi) == p;
    assert Read(img, n.ui, n.v2) == p && Read(img, n.u2, n.v2) == p;
    UniformNeighbourhood(uv.u, uv.v, img, img.width, img.height, p);
  }

  /** The flat column index `k` of column i of face f, as handed to the workers. */
  function Flat(f: int, i: int, edge: int): int {
    f * edge + i
  }

  /**
   * `face := k / edge` in `convert`: Go's integer division truncates toward
   * zero, so `face * edge` lies between 0 and k, less than one edge away.
   */
  function FaceOf(k: int, edge: int): (q: int)
    requires edge >= 1
    ensures 0 <= k ==> 0 <= q * edge <= k < q * edge + edge
    ensures k < 0 ==> q * edge - edge < k <= q * edge <= 0
  {
    if k >= 0 then
      QuotientBounds(k, edge);
      k / edge
    else
      QuotientBounds(-k, edge);
      -((-k) / edge)
  }

  /** Euclidean division of a non-negative m: `(m / edge) * edge` is at most m, less than an edge below. */
  lemma QuotientBounds(m: int, edge: int)
    requires m >= 0 && edge >= 1
    ensures 0 <= (m / edge) * edge <= m < (m / edge) * edge + edge
    ensures (-(m / edge)) * edge == -((m / edge) * edge)
  {
    var q := m / edge;
    assert m == q * edge + m % edge;
    MultipleSign(q, edge);
  }

  /**
   * `i := k % edge` in `convert`: Go's remainder takes the sign of k, so it
   * is a column in [0, edge) only for k >= 0.
   */
  function ColumnOf(k: int, edge: int): (i: int)
    requires edge >= 1
    ensures 0 <= k ==> 0 <= i < edge
    ensures k < 0 ==> -edge < i <= 0
  {
    k - FaceOf(k, edge) * edge
  }

  /** A product of an integer at least 1 and a positive integer is at least that integer. */
  lemma MulAtLeast(d: int, edge: int)
    requires d >= 1 && edge >= 1
    ensures d * edge >= edge
  {
    if d > 1 {
      MulAtLeast(d - 1, edge);
      assert d * edge == (d - 1) * edge + edge;
    }
  }

  /** The sign of a multiple of a positive integer follows the sign of the multiplier. */
  lemma MultipleSign(d: int, edge: int)
    requires edge >= 1
    ensures d >= 1 ==> d * edge >= edge
    ensures d <= 0 ==> d * edge <= 0
  {
    if d >= 1 {
      MulAtLeast(d, edge);
    } else if d < 0 {
      MulAtLeast(-d, edge);
      assert d * edge == -((-d) * edge);
    }
  }

  /**
   * Every flat index splits into a face and a column that rebuild it; an
   * index in (-edge, 0) lands on face 0 with a negative column.
   */
  lemma FlatOfSplit(k: int, edge: int)
    requires edge >= 1
    ensures Flat(FaceOf(k, edge), ColumnOf(k, edge), edge) == k
    ensures -edge < k < 0 ==> FaceOf(k, edge) == 0 && ColumnOf(k, edge) == k
  {
    if -edge < k < 0 {
      var q := FaceOf(k, edge);
      MultipleSign(q, edge);
      MultipleSign(q + 1, edge);
      assert (q + 1) * edge == q * edge + edge;
    }
  }

  /** Splitting the flat index of (f, i) gives back f and i. */
  lemma SplitOfFlat(f: int, i: int, edge: int)
    requires edge >= 1 && 0 <= f && 0 <= i < edge
    ensures FaceOf(Flat(f, i, edge), edge) == f
    ensures ColumnOf(Flat(f, i, edge), edge) == i
  {
    var k := Flat(f, i, edge);
    var q, r := FaceOf(k, edge), ColumnOf(k, edge);
    MultipleSign(f, edge);
    FlatOfSplit(k, edge);
    assert (f - q) * edge == r - i;
    assert (q - f) * edge == i - r;
    MultipleSign(f - q, edge);
    MultipleSign(q - f, edge);
  }

  /** A flat index in [0, n * edge) belongs to one of the first n faces. */
  lemma FaceBelow(k: int, n: int, edge: int)
    requires edge >= 1 && 0 <= k < n * edge
    ensures 0 <= FaceOf(k, edge) < n
  {
    FlatOfSplit(k, edge);
    var q := FaceOf(k, edge);
    assert (n - q) * edge == n * edge - q * edge;
    assert (q + 1) * edge == q * edge + edge;
    MultipleSign(n - q, edge);
    MultipleSign(q + 1, edge);
  }

  /**
   * The range handed to worker f, [f*edge, f*edge + edge), lies wholly in
   * face f, and its column index `k % edge` is `k - f*edge`: each column
   * 0 .. edge-1 comes from exactly one k of the range.
   */
  lemma WorkerRange(f: int, edge: int)
    requires edge >= 1 && 0 <= f
    ensures forall k | f * edge <= k < f * edge + edge ::
      FaceOf(k, edge) == f && ColumnOf(k, edge) == k - f * edge
    ensures forall i | 0 <= i < edge ::
      f * edge <= Flat(f, i, edge) < f * edge + edge && ColumnOf(Flat(f, i, edge), edge) == i
  {
    forall k | f * edge <= k < f * edge + edge
      ensures FaceOf(k, edge) == f && ColumnOf(k, edge) == k - f * edge
    {
      SplitOfFlat(f, k - f * edge, edge);
    }
    forall i | 0 <= i < edge
      ensures ColumnOf(Flat(f, i, edge), edge) == i
    {
      SplitOfFlat(f, i, edge);
    }
  }

  /** No two workers share a canvas. */
  predicate Distinct(canvases: seq<array2<Rgba>>) {
    forall f, g | 0 <= f < g < |canvases| :: canvases[f] != canvases[g]
  }

  /** The canvases a worker for the flat range [start, end) writes to. */
  function Touched(imgOut: seq<array2<Rgba>>, start: int, end: int, edge: int): set<array2<Rgba>> {
    set k | edge >= 1 && start <= k < end && 0 <= FaceOf(k, edge) < |imgOut| :: imgOut[FaceOf(k, edge)]
  }

  /**
   * Worker f, given [f*edge, f*edge + edge), touches canvas f and no other,
   * which is why the concurrent workers never race.
   */
  lemma WorkerTouchesOwnCanvas(imgOut: seq<array2<Rgba>>, f: int, edge: int)
    requires 0 <= f < |imgOut|
    ensures Touched(imgOut, f * edge, f * edge + edge, edge) <= {imgOut[f]}
    ensures edge >= 1 ==> imgOut[f] in Touched(imgOut, f * edge, f * edge + edge, edge)
  {
    if edge >= 1 {
      WorkerRange(f, edge);
      assert FaceOf(f * edge, edge) == f;
    }
  }

  /**
   * What a worker writes at (face, i, j): the dispatchers pass the face
   * pixel of their copy of the engine, `FacePixel`.
   */
  type Painter = (int, int, int) -> Rgba

  /**
   * The painter of one copy of the engine: the face pixel of every pixel
   * `convert` can reach. No pixel outside the six faces is ever written.
   */
  function Paint(version: Version, edge: int, img: Raster, sw: int, sh: int, sphere: Sphere): (paint: Painter)
    ensures forall f, i, j | edge >= 1 && IsFace(f) ::
      paint(f, i, j) == FacePixel(version, f, i, j, edge, img, sw, sh, sphere)
  {
    (f, i, j) => if edge >= 1 && IsFace(f) then FacePixel(version, f, i, j, edge, img, sw, sh, sphere) else Cleared
  }

  /**
   * `convert`: for every flat index k in [start, end), write every row j of
   * column `k % edge` of canvas `k / edge`. Afterwards each pixel whose flat
   * index is in the range holds its painted colour and every other pixel is
   * as before.
   */
  method Convert(start: int, end: int, edge: nat, paint: Painter, imgOut: seq<array2<Rgba>>)
    requires |imgOut| <= FaceCount
    requires 0 <= start <= end <= |imgOut| * edge
    requires forall f | 0 <= f < |imgOut| :: imgOut[f].Length0 == edge && imgOut[f].Length1 == edge
    requires Distinct(imgOut)
    modifies Touched(imgOut, start, end, edge)
    ensures forall f, i, j | 0 <= f < |imgOut| && 0 <= i < edge && 0 <= j < edge ::
      imgOut[f][i, j] == if start <= Flat(f, i, edge) < end then paint(f, i, j) else old(imgOut[f][i, j])
  {
    var k := start;
    while k < end
      invariant start <= k <= end
      invariant forall f, i, j | 0 <= f < |imgOut| && 0 <= i < edge && 0 <= j < edge ::
        imgOut[f][i, j] == if start <= Flat(f, i, edge) < k then paint(f, i, j) else old(imgOut[f][i, j])
    {
      assert edge >= 1;
      FaceBelow(k, |imgOut|, edge);
      FlatOfSplit(k, edge);
      var face := FaceOf(k, edge);
      var i := ColumnOf(k, edge);
      FillColumn(face, i, edge, paint, imgOut[face]);
      forall f, i', j' | 0 <= f < |imgOut| && 0 <= i' < edge && 0 <= j' < edge
        ensures imgOut[f][i', j'] == if start <= Flat(f, i', edge) < k + 1 then paint(f, i', j')
                                     else old(imgOut[f][i', j'])
      {
        SplitOfFlat(f, i', edge);
        if f != face {
          assert imgOut[f] != imgOut[face];
        }
      }
      k := k + 1;
    }
  }

  /**
   * The inner loop of `convert`: every row j of column i of the canvas of
   * `face` gets its painted colour; the other columns are left alone.
   */
  method FillColumn(face: int, i: int, edge: int, paint: Painter, canvas: array2<Rgba>)
    requires 0 <= i < edge
    requires canvas.Length0 == edge && canvas.Length1 == edge
    modifies canvas
    ensures forall i', j' | 0 <= i' < edge && 0 <= j' < edge ::
      canvas[i', j'] == if i' == i then paint(face, i', j') else old(canvas[i', j'])
  {
    var j := 0;
    while j < edge
      invariant 0 <= j <= edge
      invariant forall i', j' | 0 <= i' < edge && 0 <= j' < edge ::
        canvas[i', j'] == if i' == i && j' < j then paint(face, i', j') else old(canvas[i', j'])
    {
      canvas[i, j] := paint(face, i, j);
      j := j + 1;
    }
  }

  /**
   * The fan-out shared by both dispatchers: six `edge×edge` canvases, face f
   * filled by the worker for [f*edge, f*edge + edge). The workers run in
   * turn; since each touches only its own canvas the order does not matter.
   */
  method Dispatch(rValue: nat, paint: Painter) returns (canvases: seq<array2<Rgba>>)
    ensures |canvases| == FaceCount && Distinct(canvases)
    ensures forall f | 0 <= f < FaceCount ::
      fresh(canvases[f]) && canvases[f].Length0 == rValue && canvases[f].Length1 == rValue
    ensures forall f, i, j | 0 <= f < FaceCount && 0 <= i < rValue && 0 <= j < rValue ::
      canvases[f][i, j] == paint(f, i, j)
  {
    canvases := [];
    var f := 0;
    while f < FaceCount
      invariant 0 <= f <= FaceCount && |canvases| == f && Distinct(canvases)
      invariant forall g | 0 <= g < f ::
        fresh(canvases[g]) && canvases[g].Length0 == rValue && canvases[g].Length1 == rValue
      invariant forall g, i, j | 0 <= g < f && 0 <= i < rValue && 0 <= j < rValue ::
        canvases[g][i, j] == paint(g, i, j)
    {
      var canvas := new Rgba[rValue, rValue]((_, _) => Cleared);
      canvases := canvases + [canvas];
      var start := f * rValue;
      var end := start + rValue;
      WorkerTouchesOwnCanvas(canvases, f, rValue);
      assert end == (f + 1) * rValue;
      Convert(start, end, rValue, paint, canvases);
      f := f + 1;
    }
  }

  /**
   * `ConvertEquirectangularToCubeMap` of conv/convert.go: exactly six
   * `rValue×rValue` canvases, canvas f holding face f, every pixel written
   * with alpha 255.
   */
  method ConvertEquirectangularToCubeMap(rValue: nat, img: Raster, sphere: Sphere)
    returns (canvases: seq<array2<Rgba>>)
    ensures |canvases| == FaceCount && Distinct(canvases)
    ensures forall f | 0 <= f < FaceCount ::
      fresh(canvases[f]) && canvases[f].Length0 == rValue && canvases[f].Length1 == rValue
    ensures forall f, i, j | 0 <= f < FaceCount && 0 <= i < rValue && 0 <= j < rValue ::
      && canvases[f][i, j] == FacePixel(Current, f, i, j, rValue, img, img.width, img.height, sphere)
      && canvases[f][i, j].a == 255
  {
    canvases := Dispatch(rValue, Paint(Current, rValue, img, img.width, img.height, sphere));
  }

  /**
   * `ConverBack` of img/convert.go: the same six canvases, pixel for pixel,
   * as `ConvertEquirectangularToCubeMap` produces.
   */
  method ConverBack(rValue: nat, img: Raster, sphere: Sphere)
    returns (canvases: seq<array2<Rgba>>)
    ensures |canvases| == FaceCount && Distinct(canvases)
    ensures forall f | 0 <= f < FaceCount ::
      fresh(canvases[f]) && canvases[f].Length0 == rValue && canvases[f].Length1 == rValue
    ensures forall f, i, j | 0 <= f < FaceCount && 0 <= i < rValue && 0 <= j < rValue ::
      && canvases[f][i, j] == FacePixel(Current, f, i, j, rValue, img, img.width, img.height, sphere)
      && canvases[f][i, j].a == 255
  {
    canvases := Dispatch(rValue, Paint(Legacy, rValue, img, img.width, img.height, sphere));
    forall f, i, j | 0 <= f < FaceCount && 0 <= i < rValue && 0 <= j < rValue
      ensures FacePixel(Legacy, f, i, j, rValue, img, img.width, img.height, sphere)
           == FacePixel(Current, f, i, j, rValue, img, img.width, img.height, sphere)
    {
      VersionsAgree(f, i, j, rValue, img, img.width, img.height, sphere);
    }
  }
}
