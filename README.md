# panorama: equirectangular-to-cubemap conversion, modelled in Dafny

The Go program `panorama` turns a 360° equirectangular image into the six
faces of a cubemap. For every pixel (i, j) of a face it computes a direction
on the cube, maps that direction to fractional source coordinates (uf, vf)
with `atan2`/`hypot`, and blends the four source pixels around (uf, vf)
bilinearly. Six goroutines fill the six canvases, one face each. A small
command-line front end picks the input, validates the side names and writes
each canvas to a file named after a side.

This project models the exact parts of that engine over Dafny `real`s, which
stand in for `float64`:

- `geometry.dfy` (module `Geometry`) holds the face table of `outImgToXYZ`.
  It covers both copies: conv/convert.go stops the process on an unknown
  face, and img/convert.go returns the zero vector there.
- `bilinear.dfy` (module `Bilinear`) holds `safeIndex`, `mix`, the
  four-neighbour blend of `interpolateXYZtoColor` from `ui`/`vi` onward, and
  Go's float-to-integer conversions. Both convert.go copies share these
  definitions because they are identical.
- `cubemap.dfy` (module `Cubemap`) holds the per-pixel colour and the worker
  `convert`, over one `array2` canvas per face. It also holds the
  dispatchers `ConvertEquirectangularToCubeMap` (conv) and `ConverBack`
  (img). Both share one fan-out loop. The loop and `convert` are stated for
  any per-pixel colouring (a `Painter`); each dispatcher passes the face
  pixel of its copy of `outImgToXYZ`. The key facts: worker f touches only
  canvas f, and it writes every pixel of that canvas exactly once.
- `names.dfy` (module `FaceNames`) holds the face-name maps, the format
  check of `ReadImage`, and the decisions of `WriteImage` (conv/img.go).
  `WriteImage` returns the file-system effects it would perform, in order.
- `cli.dfy` (module `Cli`) holds the rules of cmd/root.go: `isValidSide`,
  `isImageFile` (with `filepath.Ext` and lower-casing), the side default
  and validation, the exactly-one-input rule, and which directory entries
  are dispatched.
- `wrappers.dfy` (module `Wrappers`) holds `Option` and `Result`.

The spherical step (`atan2`, `hypot`, the `sh / π` scaling) is a parameter
`sphere` of type `(Vec3, int) -> SourceCoords`. Every property about
rendering holds for any such mapping. Where a property needs the
coordinates to be non-negative, as the real mapping guarantees, this is a
hypothesis.

Two behaviours of the code are worth knowing:

- The default side order is front, back, left, right, top, bottom
  (cmd/root.go:32). The canvas order is back, left, front, right, top,
  bottom (conv/img.go:15-22). `WriteImage` pairs sides and canvases purely
  by position, so with the default sides the back face is written to
  `front.<ext>`, the left face to `back.<ext>` and the front face to
  `left.<ext>`. `Cli.DefaultSidesPairing` states this.
- With an unsupported extension, `WriteImage` still creates the first
  file, then returns its error. With zero canvases it returns no error,
  whatever the extension.

`ConvertEquirectangularToCubeMap` does not reject a non-positive edge
(edge 0 gives six empty canvases) or an empty source, and it always renders
all six faces in face order.

## Model

| member | source | states |
|---|---|---|
| `Geometry.InLen` | conv/convert.go:109 | the step `2/edge` is positive, at most 2, and `edge` steps span exactly 2 |
| `Geometry.Coord` | conv/convert.go:21-22 | pixels 0..edge-1 give plane coordinates in [-1, 1); pixel 0 gives -1; for even edge, pixel edge/2 gives exactly 0 |
| `Geometry.Normal` | conv/convert.go:26-37 | reference normals: each face sits at ±1 on one axis and 0 on the others |
| `Geometry.FaceTable` | conv/convert.go:25-37 | every (a, b) lands on the plane of its face (the face's axis component is the face's sign), (0, 0) lands on the face normal, and for a, b in [-1, 1] the largest absolute component is exactly 1 |
| `Geometry.FaceTableInjective` | conv/convert.go:26-37 | no face folds or collapses: distinct plane coordinates give distinct directions |
| `Geometry.NormalsDistinct` | conv/convert.go:26-37 | the six faces sit on six distinct signed axes |
| `Geometry.OutImgToXYZ` | conv/convert.go:20-42 | succeeds exactly for faces 0..5, and fails ("Wrong face") otherwise; a pixel inside the face gives a direction on the unit cube, on the face's plane |
| `Geometry.OutImgToXYZLegacy` | img/convert.go:26-48 | equals the conv result on faces 0..5; on any other face, where conv fails, it yields the zero vector |
| `Geometry.CentrePixel` | conv/convert.go:20-37 | for even edge, the centre pixel of every face points along that face's normal |
| `Bilinear.At` | conv/convert.go:64 | inside a well-formed raster, the pixel at (x, y) is the stored pixel |
| `Bilinear.Read` | conv/convert.go:63-70 | every channel read from the source lies in [0, 255] |
| `Bilinear.Trunc` | conv/convert.go:125 | Go's float-to-int conversion discards the fraction toward zero |
| `Bilinear.SafeIndex` | conv/convert.go:124-126 | for size ≥ 1 the index is in [0, size-1]; it is the floor of n when n is already in range, size-1 at or above the top and 0 at or below zero |
| `Bilinear.Scale` | conv/convert.go:129-131 | the weighted step `d * c` is 0 at c=0 and d at c=1 |
| `Bilinear.ScaleWithin` | conv/convert.go:129-131 | for a weight c in [0, 1] the weighted step lies between 0 and d, whatever the sign of d |
| `Bilinear.Lerp` | conv/convert.go:129-131 | one channel of `mix`: p at c=0, q at c=1, p when p=q, and between p and q for c in [0, 1] |
| `Bilinear.Mix` | conv/convert.go:128-138 | `mix` returns `one` at c=0, `other` at c=1, and p for every c when both inputs are p |
| `Bilinear.MixBetween` | conv/convert.go:128-138 | a weight in [0, 1], or equal endpoints, keeps every channel between the endpoints |
| `Bilinear.ClampAxis` | conv/convert.go:55-58 | clamped indices are in range; at or beyond the last pixel both neighbours are the last pixel; inside, the neighbour is the next pixel and the weight is in [0, 1) |
| `Bilinear.Locate` | conv/convert.go:55-61 | the four neighbour indices are in range for a non-empty source; the clamped-column and clamped-row cases give `u2 = ui` and `v2 = vi`; otherwise, for non-negative coordinates, the weights lie in [0, 1) |
| `Bilinear.ClampedColumn` | conv/convert.go:55-77 | when floor(uf) ≥ sw-1 both horizontal blends return their left pixel whatever mu is, so the result is the same for every such uf |
| `Bilinear.ClampedRow` | conv/convert.go:56-77 | when floor(vf) ≥ sh-1 the vertical blend returns the upper row whatever nu is, so the result is the same for every such vf |
| `Bilinear.UniformNeighbourhood` | conv/convert.go:72-77 | four equal neighbours blend to their common colour for any mu and nu |
| `Bilinear.Blend` | conv/convert.go:72-77 | the two-stage `mix` of the four neighbours; ClampedColumn, ClampedRow, UniformNeighbourhood and BlendInterpolates state its properties |
| `Bilinear.BlendInterpolates` | conv/convert.go:55-77 | for non-negative (uf, vf) the blend never extrapolates: each stage stays between its inputs, and every channel is in [0, 255] |
| `Bilinear.Uint32Of` | conv/convert.go:78-82 | `uint32(x)` is in range, and equals floor(x) for 0 ≤ x < 2^32 |
| `Bilinear.Uint8Of` | conv/convert.go:119 | `uint8(n)` keeps n modulo 256, and n itself when n < 256 |
| `Bilinear.ChannelConversion` | conv/convert.go:119 | a channel in [0, 256) survives `uint8(uint32(x))` as floor(x) |
| `Cubemap.Direction` | conv/convert.go:116 | both copies of `convert` compute the face-table direction for every face 0..5 |
| `Cubemap.InterpolateXYZtoColor` | conv/convert.go:44-83 | every channel is a `uint32` value |
| `Cubemap.InterpolateChannels` | conv/convert.go:72-82 | for non-negative coordinates over a non-empty source each channel is the floor of the blended value, at most 255 |
| `Cubemap.FacePixel` | conv/convert.go:116-120 | every written pixel has alpha 255 |
| `Cubemap.FacePixelChannels` | conv/convert.go:116-120 | for non-negative coordinates over a non-empty source the channels of a written pixel are the floors of the blend at the pixel's direction: the `uint8` narrowing loses nothing |
| `Cubemap.MappedPixelChannels` | conv/convert.go:116-120 | for a spherical mapping that never yields negative source coordinates, over a non-empty source, every face pixel is opaque and its channels are the floors of the blend at its direction |
| `Cubemap.VersionsAgree` | img/convert.go:26-48 | the conv and img copies produce the same pixel for every face |
| `Cubemap.UniformSource` | conv/convert.go:72-82 | a single-colour source gives that colour, fully opaque, at every pixel of every face, for any spherical mapping |
| `Cubemap.FaceOf` | conv/convert.go:112 | Go's `k / edge`, truncating toward zero: `face * edge` lies between 0 and k, less than one edge from k, for either sign of k |
| `Cubemap.ColumnOf` | conv/convert.go:113 | Go's `k % edge`, with the sign of k: a column in [0, edge) for k ≥ 0, in (-edge, 0] for k < 0 |
| `Cubemap.FlatOfSplit` | conv/convert.go:112-113 | `(k / edge) * edge + k % edge = k` for every k; an index in (-edge, 0) lands on face 0 with column k |
| `Cubemap.SplitOfFlat` | conv/convert.go:112-113 | for a face f ≥ 0, the flat index of (f, i) splits back into face f and column i |
| `Cubemap.FaceBelow` | conv/convert.go:111-112 | a flat index in [0, n·edge) names one of the first n canvases |
| `Cubemap.WorkerRange` | conv/convert.go:95-96 | for a worker f ≥ 0, every k in [f·edge, f·edge+edge) has `k / edge = f` and `k % edge = k - f·edge`, so each column 0..edge-1 comes from exactly one k |
| `Cubemap.WorkerTouchesOwnCanvas` | conv/convert.go:95-100 | the worker for face f writes to canvas f and to no other canvas |
| `Cubemap.Convert` | conv/convert.go:108-122 | every pixel whose flat column index is in [start, end) holds its painted colour; every other pixel is unchanged; only the canvases of that range are modified |
| `Cubemap.FillColumn` | conv/convert.go:115-121 | every row of column i of the face's canvas holds its painted colour; the other columns are unchanged |
| `Cubemap.Dispatch` | conv/convert.go:89-103 | six fresh, distinct `edge×edge` canvases; canvas f holds the painted colour of face f at every pixel |
| `Cubemap.ConvertEquirectangularToCubeMap` | conv/convert.go:85-106 | exactly six distinct `rValue×rValue` canvases; canvas f holds face f; every pixel is written, with alpha 255 |
| `Cubemap.ConverBack` | img/convert.go:91-109 | the same six canvases, pixel for pixel, as the conv dispatcher |
| `FaceNames.FaceMapKeys` | conv/img.go:13-22 | `faceMap` has exactly the keys 0..5, faceLen of them |
| `FaceNames.FaceMapsInverse` | conv/img.go:15-31 | `faceMap` and `revesedFaceMap` are inverse bijections between the face numbers and the six side names |
| `FaceNames.CheckDecodedFormat` | conv/img.go:49-53 | a decoded image is accepted exactly when its format is jpg, jpeg or png; otherwise the result is the "unsupported image format" error |
| `FaceNames.NormalizeExt` | conv/img.go:67-70 | "jpg" becomes "jpeg"; every other extension is unchanged; "jpg" never survives |
| `FaceNames.SidePath` | conv/img.go:74 | the file `side + "." + ext` in the output directory; SidePathsDistinct states that distinct sides get distinct (directory, name) pairs |
| `FaceNames.SidePathsDistinct` | conv/img.go:73-74 | two sides give the same (directory, name) pair exactly when they are the same side; `filepath.Join`'s cleaning, which can merge names such as `./front` and `front`, is not modelled |
| `FaceNames.FormatOf` | conv/img.go:77-88 | only "jpeg" and "png" select an encoder |
| `FaceNames.Writes` | conv/img.go:72-88 | each written canvas costs exactly one create and one encode |
| `FaceNames.WritesPositional` | conv/img.go:72-74 | round i creates `join(dir, sides[i] + "." + ext)` and encodes canvas i into it |
| `FaceNames.WriteImage` | conv/img.go:56-91 | mismatched lengths fail before any effect; otherwise the directory is created if missing, canvas i goes to `sides[i].ext` with jpg read as jpeg, and any other extension fails after creating the first file |
| `Cli.IsValidSide` | cmd/root.go:205-212 | true exactly when the side is one of the six `validSides` |
| `Cli.Ext` | cmd/root.go:190 | the extension is a suffix of the name with no '/'; it is empty or starts with its only '.' |
| `Cli.ToLower` | cmd/root.go:190 | `strings.ToLower` on ASCII, character by character: the length is kept |
| `Cli.ToLowerLowers` | cmd/root.go:190 | after lower-casing no ASCII capital remains, and every other character is unchanged |
| `Cli.ExtOfSuffix` | cmd/root.go:190 | a name ending in a dot-extension has exactly that extension |
| `Cli.ExtOfLower` | cmd/root.go:190 | lower-casing a name lower-cases its extension |
| `Cli.IsImageFile` | cmd/root.go:189-192 | the lower-cased extension is .jpg, .jpeg or .png; IsImageFileIgnoresCase and ImageFileSuffix state its properties |
| `Cli.LowerIdempotent` | cmd/root.go:190 | lower-casing twice is lower-casing once |
| `Cli.IsImageFileIgnoresCase` | cmd/root.go:189-192 | a name and its lower-cased form are image files together |
| `Cli.ImageFileSuffix` | cmd/root.go:189-192 | any stem followed by .jpg, .jpeg or .png, in any case, is an image file; every image file name ends in one of them |
| `Cli.FirstInvalid` | cmd/root.go:87-91 | finds the first side not in `validSides`, or reports that all are valid |
| `Cli.ResolveSides` | cmd/root.go:84-91 | an empty list becomes the six valid sides in order front, back, left, right, top, bottom; a list of valid sides is kept as given; any invalid side is an error |
| `Cli.DefaultSidesPairing` | cmd/root.go:32 | with the default sides, canvas f is encoded under `validSides[f]`, which names its face only for f ≥ 3 |
| `Cli.SelectInput` | cmd/root.go:45-50 | succeeds exactly when one of the input file and the input directory is given, and picks that one |
| `Cli.Dispatched` | cmd/root.go:143-144 | no more paths are dispatched than there are directory entries |
| `Cli.Selected` | cmd/root.go:144 | an entry is dispatched when it is not a directory and is an image file; DispatchedExactly shows these are exactly the dispatched entries |
| `Cli.DispatchedExactly` | cmd/root.go:143-144 | every dispatched path is a non-directory image entry, and every such entry is dispatched |
| `Cli.ProcessDirectory` | cmd/root.go:143-153 | the loop dispatches exactly the selected entries, in directory order |
| `Cli.Options.constructor` | cmd/root.go:64-70 | the flag defaults: no input, output ".", edge 1024, no sides |
| `Cli.Options.ApplySides` | cmd/root.go:84-92 | the shared side list is replaced by its resolved value, or left as it was with the first invalid side's message |

## Left out

- The spherical mapping (`math.Atan2`, `math.Hypot`, `dividedH`; conv/convert.go:45-52 and img/convert.go:51-58) is transcendental floating point. It is the parameter `sphere`.
- IEEE rounding is not modelled: every `float64` is an exact `real`.
- `Bilinear.Uint32Of`: Go leaves `uint32` of a negative or too-large float to the platform. The model truncates and wraps, and its contract is stated only for 0 ≤ x < 2^32.
- `Bilinear.At`: outside the stored rows it returns black. Go's answer there depends on the decoder's image type. Such reads happen only for a zero-width or zero-height source.
- The source's 16-bit `RGBA()` colour model is not modelled: a source pixel is the triple of 8-bit channels after `>> 8`.
- Goroutines and `sync.WaitGroup` are not modelled: the workers run one after another. `WorkerTouchesOwnCanvas` and the `modifies` clause of `Convert` show that the workers write disjoint canvases.
- `Cubemap.Convert`: the per-pixel work of `convert` (`outImgToXYZ`, `interpolateXYZtoColor`, the `uint8` narrowing) is passed in as a function value rather than called by name. Both dispatchers pass `Paint`, the face pixel of their copy, so the rendered canvases are the same; the contract of `convert` holds for any colouring.
- `Cubemap.Convert` requires `0 <= start <= end <= |imgOut| * edge`, with at most six canvases. Go's `convert` does not check its range. For -edge < k < 0, truncating `/` gives face 0 and `image.RGBA.Set` silently drops the out-of-bounds write. In conv/convert.go, a face outside 0..5, negative or 6 and above, stops the process ("Wrong face") before the slice is indexed. In img/convert.go, such a face prints its number and then panics on the slice index. A face in [len(imgOut), 6) panics on the slice index in both copies. Its only caller never leaves the range.
- A negative edge length is not modelled: `rValue` is a `nat`.
- `Geometry.OutImgToXYZLegacy`: for an unknown face, `outImgToXYZ` in img/convert.go prints the face number before returning the zero vector. That output is not modelled.
- File I/O is not modelled: `os.Stat`, `os.Open`, `os.Create`, `os.MkdirAll`, `os.ReadDir`, and image decoding and encoding. `WriteImage` returns the effects it would perform. The existence of the directory is an input. `MkdirAll` and encoder failures are not modelled.
- `filepath.Join` is kept as the pair (directory, name); its lexical cleaning is not modelled.
- `Cli.ToLower` lower-cases ASCII letters only; `strings.ToLower` also folds other Unicode letters.
- `ReadImage` is modelled only for its format check; the existence, open and decode steps are I/O.
- From cmd/root.go, these are not modelled: the semaphore, the `progress` counters and their mutex, `updateProgress`, the spinner, `uilive`, cobra, `er`/`os.Exit`, the `recover` wrapper, and the per-image output sub-directory. Fatal exits appear as `Failure` results.
- cmd/root.go:220 passes `sides` to a three-argument `ConvertEquirectangularToCubeMap`, but conv/convert.go:85 takes two. The model follows conv/convert.go and renders all six faces. The side-filtering version is not part of this model.
- main.go and cmd/main.go are benchmark and driver programs that do only I/O; cmd/main.go calls `conv.ConverPanoramaToCubemap`, which is not part of this model.
