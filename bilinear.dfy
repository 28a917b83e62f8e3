/**
 * The four-neighbour bilinear blend of `interpolateXYZtoColor`, from the
 * fractional source coordinates (uf, vf) onward, with the index clamp
 * `safeIndex` and the linear interpolation `mix`. Both convert.go copies
 * share these definitions; they are identical there.
 */
module Bilinear {
  import opened Geometry

  /** An 8-bit channel value. */
  newtype byte = x: int | 0 <= x < 256

  /** A source pixel: the 8-bit channels `RGBA() >> 8`. */
  datatype Rgb = Rgb(r: byte, g: byte, b: byte)

  const Black := Rgb(0, 0, 0)

  /**
   * The decoded equirectangular source: `rows[y][x]` is pixel (x, y), and
   * `width`, `height` are `Bounds().Max`.
   */
  datatype Raster = Raster(width: nat, height: nat, rows: seq<seq<Rgb>>) {
    predicate Valid() {
      |rows| == height && forall y | 0 <= y < |rows| :: |rows[y]| == width
    }
  }

  /** The pixel at (x, y); outside the stored rows it is black. */
  function At(img: Raster, x: int, y: int): (c: Rgb)
    ensures img.Valid() && 0 <= x < img.width && 0 <= y < img.height ==> c == img.rows[y][x]
  {
    if 0 <= y < |img.rows| && 0 <= x < |img.rows[y]| then img.rows[y][x] else Black
  }

  /** The closure `read`: pixel (x, y) as a vector of channel values. */
  function Read(img: Raster, x: int, y: int): (v: Vec3)
    ensures 0.0 <= v.x <= 255.0 && 0.0 <= v.y <= 255.0 && 0.0 <= v.z <= 255.0
  {
    var c := At(img, x, y);
    Vec3(c.r as int as real, c.g as int as real, c.b as int as real)
  }

  /** Go's conversion of a float to an integer: the fraction is discarded, rounding toward zero. */
  function Trunc(x: real): (r: int)
    ensures 0.0 <= x ==> 0 <= r && r as real <= x < r as real + 1.0
    ensures x < 0.0 ==> r <= 0 && r as real - 1.0 < x <= r as real
  {
    if x >= 0.0 then x.Floor else -((-x).Floor)
  }

  /**
   * `safeIndex(n, size)`: n clamped into [0, size-1], then truncated to an
   * integer. The size is `float64(sw)` or `float64(sh)`, so an integer.
   */
  function SafeIndex(n: real, size: int): (r: int)
    ensures size >= 1 ==> 0 <= r < size
    ensures 0.0 <= n <= (size - 1) as real ==> r == n.Floor
    ensures size >= 1 && n >= (size - 1) as real ==> r == size - 1
    ensures size >= 1 && n <= 0.0 ==> r == 0
  {
    Trunc(MinReal(MaxReal(n, 0.0), (size - 1) as real))
  }

  /** The weighted step `d * c` of `mix`. */
  function Scale(d: real, c: real): (r: real)
    ensures c == 0.0 ==> r == 0.0
    ensures c == 1.0 ==> r == d
  {
    d * c
  }

  /** A weight in [0, 1] keeps the weighted step between 0 and d. */
  lemma ScaleWithin(d: real, c: real)
    requires 0.0 <= c <= 1.0
    ensures 0.0 <= d ==> 0.0 <= Scale(d, c) <= d
    ensures d <= 0.0 ==> d <= Scale(d, c) <= 0.0
  {
    if 0.0 <= d {
      ProductNonNegative(d, c);
      ProductNonNegative(d, 1.0 - c);
    } else {
      ProductNonNegative(-d, c);
      ProductNonNegative(-d, 1.0 - c);
    }
  }

  lemma ProductNonNegative(x: real, y: real)
    requires 0.0 <= x && 0.0 <= y
    ensures 0.0 <= x * y
  {
  }

  /** One channel of `mix`: `(q - p) * c + p`. */
  function Lerp(p: real, q: real, c: real): (r: real)
    ensures c == 0.0 ==> r == p
    ensures c == 1.0 ==> r == q
    ensures p == q ==> r == p
    ensures 0.0 <= c <= 1.0 ==> MinReal(p, q) <= r <= MaxReal(p, q)
  {
    if 0.0 <= c <= 1.0 then
      ScaleWithin(q - p, c);
      Scale(q - p, c) + p
    else
      Scale(q - p, c) + p
  }

  /**
   * `mix(one, other, c)`: channel-wise linear interpolation, which gives
   * `one` at c = 0, `other` at c = 1 and p for every c when both are p.
   */
  function Mix(one: Vec3, other: Vec3, c: real): (r: Vec3)
    ensures c == 0.0 ==> r == one
    ensures c == 1.0 ==> r == other
    ensures one == other ==> r == one
  {
    Vec3(Lerp(one.x, other.x, c), Lerp(one.y, other.y, c), Lerp(one.z, other.z, c))
  }

  /** Every channel of v lies between the same channel of p and of q. */
  predicate Between(v: Vec3, p: Vec3, q: Vec3) {
    && MinReal(p.x, q.x) <= v.x <= MaxReal(p.x, q.x)
    && MinReal(p.y, q.y) <= v.y <= MaxReal(p.y, q.y)
    && MinReal(p.z, q.z) <= v.z <= MaxReal(p.z, q.z)
  }

  /** The four neighbour indices and the blend weights of a sample. */
  datatype Neighbourhood = Neighbourhood(ui: int, vi: int, u2: int, v2: int, mu: real, nu: real)

  /**
   * The clamp step of the blend, for one axis: the clamped floor of f and
   * its clamped successor. Inside the raster the successor is the next
   * pixel and the weight lies in [0, 1); at or beyond the last pixel both
   * indices are the last pixel.
   */
  lemma ClampAxis(f: real, size: int)
    ensures var i, i2 := SafeIndex(f.Floor as real, size), SafeIndex(SafeIndex(f.Floor as real, size) as real + 1.0, size);
      && (size >= 1 ==> 0 <= i < size && 0 <= i2 < size)
      && (size >= 1 && f.Floor >= size - 1 ==> i == i2 == size - 1)
      && (0.0 <= f && f.Floor < size - 1 ==> i == f.Floor && i2 == i + 1 && 0.0 <= f - i as real < 1.0)
  {
  }

  /** The indices and weights computed from `ui := safeIndex(math.Floor(uf), sw)` on. */
  function Locate(uf: real, vf: real, sw: int, sh: int): (n: Neighbourhood)
    ensures sw >= 1 ==> 0 <= n.ui < sw && 0 <= n.u2 < sw
    ensures sh >= 1 ==> 0 <= n.vi < sh && 0 <= n.v2 < sh
    ensures sw >= 1 && uf.Floor >= sw - 1 ==> n.ui == n.u2 == sw - 1
    ensures sh >= 1 && vf.Floor >= sh - 1 ==> n.vi == n.v2 == sh - 1
    ensures 0.0 <= uf && uf.Floor < sw - 1 ==> n.ui == uf.Floor && n.u2 == n.ui + 1 && 0.0 <= n.mu < 1.0
    ensures 0.0 <= vf && vf.Floor < sh - 1 ==> n.vi == vf.Floor && n.v2 == n.vi + 1 && 0.0 <= n.nu < 1.0
  {
    ClampAxis(uf, sw);
    ClampAxis(vf, sh);
    var ui := SafeIndex(uf.Floor as real, sw);
    var vi := SafeIndex(vf.Floor as real, sh);
    var u2 := SafeIndex(ui as real + 1.0, sw);
    var v2 := SafeIndex(vi as real + 1.0, sh);
    Neighbourhood(ui, vi, u2, v2, uf - ui as real, vf - vi as real)
  }

  /** The blended colour `mix(mix(A, B, mu), mix(C, D, mu), nu)` before conversion. */
  function Blend(uf: real, vf: real, img: Raster, sw: int, sh: int): Vec3 {
    var n := Locate(uf, vf, sw, sh);
    var a, b := Read(img, n.ui, n.vi), Read(img, n.u2, n.vi);
    var c, d := Read(img, n.ui, n.v2), Read(img, n.u2, n.v2);
    Mix(Mix(a, b, n.mu), Mix(c, d, n.mu), n.nu)
  }

  /**
   * At a clamped column (floor(uf) at or beyond the last column) both
   * horizontal blends return their left pixel whatever mu is, so the
   * result does not depend on how far beyond the edge uf lies.
   */
  lemma ClampedColumn(uf: real, uf': real, vf: real, img: Raster, sw: int, sh: int)
    requires sw >= 1 && uf.Floor >= sw - 1 && uf'.Floor >= sw - 1
    ensures var n := Locate(uf, vf, sw, sh);
      Blend(uf, vf, img, sw, sh) == Mix(Read(img, sw - 1, n.vi), Read(img, sw - 1, n.v2), n.nu)
    ensures Blend(uf, vf, img, sw, sh) == Blend(uf', vf, img, sw, sh)
  {
    var n, n' := Locate(uf, vf, sw, sh), Locate(uf', vf, sw, sh);
    assert n.vi == n'.vi && n.v2 == n'.v2 && n.nu == n'.nu;
  }

  /**
   * At a clamped row the vertical blend returns the upper horizontal blend
   * whatever nu is.
   */
  lemma ClampedRow(uf: real, vf: real, vf': real, img: Raster, sw: int, sh: int)
    requires sh >= 1 && vf.Floor >= sh - 1 && vf'.Floor >= sh - 1
    ensures var n := Locate(uf, vf, sw, sh);
      Blend(uf, vf, img, sw, sh) == Mix(Read(img, n.ui, sh - 1), Read(img, n.u2, sh - 1), n.mu)
    ensures Blend(uf, vf, img, sw, sh) == Blend(uf, vf', img, sw, sh)
  {
    var n, n' := Locate(uf, vf, sw, sh), Locate(uf, vf', sw, sh);
    assert n.ui == n'.ui && n.u2 == n'.u2 && n.mu == n'.mu;
  }

  /** A neighbourhood of four equal pixels blends to that pixel, for any weights. */
  lemma UniformNeighbourhood(uf: real, vf: real, img: Raster, sw: int, sh: int, p: Vec3)
    requires var n := Locate(uf, vf, sw, sh);
      Read(img, n.ui, n.vi) == Read(img, n.u2, n.vi) == Read(img, n.ui, n.v2) == Read(img, n.u2, n.v2) == p
    ensures Blend(uf, vf, img, sw, sh) == p
  {
  }

  /**
   * For non-negative coordinates (the spherical mapping only produces
   * those) the blend never extrapolates: each channel lies between the
   * smallest and largest of that channel over the four neighbours, and so
   * within [0, 255].
   */
  lemma BlendInterpolates(uf: real, vf: real, img: Raster, sw: int, sh: int)
    requires 0.0 <= uf && 0.0 <= vf && sw >= 1 && sh >= 1
    ensures var n := Locate(uf, vf, sw, sh);
      var top := Mix(Read(img, n.ui, n.vi), Read(img, n.u2, n.vi), n.mu);
      var bottom := Mix(Read(img, n.ui, n.v2), Read(img, n.u2, n.v2), n.mu);
      && Between(top, Read(img, n.ui, n.vi), Read(img, n.u2, n.vi))
      && Between(bottom, Read(img, n.ui, n.v2), Read(img, n.u2, n.v2))
      && Between(Blend(uf, vf, img, sw, sh), top, bottom)
    ensures var v := Blend(uf, vf, img, sw, sh);
      0.0 <= v.x <= 255.0 && 0.0 <= v.y <= 255.0 && 0.0 <= v.z <= 255.0
  {
    var n := Locate(uf, vf, sw, sh);
    var a, b := Read(img, n.ui, n.vi), Read(img, n.u2, n.vi);
    var c, d := Read(img, n.ui, n.v2), Read(img, n.u2, n.v2);
    MixBetween(a, b, n.mu);
    MixBetween(c, d, n.mu);
    var top, bottom := Mix(a, b, n.mu), Mix(c, d, n.mu);
    MixBetween(top, bottom, n.nu);
  }

  /**
   * A blend whose weight is in [0, 1], or whose endpoints coincide, stays
   * between its endpoints.
   */
  lemma MixBetween(p: Vec3, q: Vec3, c: real)
    requires (0.0 <= c <= 1.0) || p == q
    ensures Between(Mix(p, q, c), p, q)
  {
  }

  /**
   * Go's `uint32(x)` for a float: truncation, which is exact only for
   * 0 <= x < 2^32; outside that range Go leaves the result to the
   * platform, and the model wraps the truncated value.
   */
  function Uint32Of(x: real): (r: int)
    ensures 0 <= r < 0x1_0000_0000
    ensures 0.0 <= x < 0x1_0000_0000 as real ==> r == x.Floor
  {
    Trunc(x) % 0x1_0000_0000
  }

  /** Go's `uint8(n)` for an integer: the low eight bits. */
  function Uint8Of(n: int): (r: byte)
    ensures (n - r as int) % 256 == 0
    ensures 0 <= n < 256 ==> r as int == n
  {
    (n % 256) as byte
  }

  /** An 8-bit channel in [0, 256) survives `uint8(uint32(x))` as its floor. */
  lemma ChannelConversion(x: real)
    requires 0.0 <= x < 256.0
    ensures Uint8Of(Uint32Of(x)) as int == x.Floor
  {
  }
}
