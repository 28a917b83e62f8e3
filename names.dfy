/**
 * The side-name bookkeeping of conv/img.go: the face number/name maps, the
 * format check of `ReadImage`, and the decisions `WriteImage` takes before
 * each file is encoded (length check, "jpg" normalisation, positional
 * naming, supported formats). File-system calls appear as a list of the
 * effects they would have.
 */
module FaceNames {
  import opened Wrappers

  const FaceLen := 6

  /** `faceMap`: face number to side name, in the canvas order. */
  const FaceMap: map<int, string> :=
    map[0 := "back", 1 := "left", 2 := "front", 3 := "right", 4 := "top", 5 := "bottom"]

  /** `revesedFaceMap`: side name to face number. */
  const ReversedFaceMap: map<string, int> :=
    map["back" := 0, "left" := 1, "front" := 2, "right" := 3, "top" := 4, "bottom" := 5]

  /** `faceMap` has exactly the keys 0 .. faceLen-1. */
  lemma FaceMapKeys()
    ensures forall k :: k in FaceMap <==> 0 <= k < FaceLen
    ensures |FaceMap| == FaceLen
  {
    assert FaceMap.Keys == {0, 1, 2, 3, 4, 5};
  }

  /** The two maps are inverse bijections between the face numbers and the six side names. */
  lemma FaceMapsInverse()
    ensures ReversedFaceMap.Keys == FaceMap.Values
    ensures forall k | k in FaceMap :: FaceMap[k] in ReversedFaceMap && ReversedFaceMap[FaceMap[k]] == k
    ensures forall s | s in ReversedFaceMap :: ReversedFaceMap[s] in FaceMap && FaceMap[ReversedFaceMap[s]] == s
  {
    assert FaceMap.Keys == {0, 1, 2, 3, 4, 5};
    assert ReversedFaceMap.Keys == {"back", "left", "front", "right", "top", "bottom"};
    assert FaceMap.Values == {"back", "left", "front", "right", "top", "bottom"};
  }

  /** Formats `ReadImage` accepts from the decoder. */
  const DecodableFormats: set<string> := {"jpg", "jpeg", "png"}

  /**
   * The format check at the end of `ReadImage`: the decoded image and its
   * format name are returned only for jpg, jpeg and png; any other format is
   * an "unsupported image format" error.
   */
  function CheckDecodedFormat<T>(decoded: T, ext: string): (r: Result<(T, string)>)
    ensures r.Success? <==> ext in DecodableFormats
    ensures r.Success? ==> r.value == (decoded, ext)
    ensures r.Failure? ==> r.error == "unsupported image format: " + ext
  {
    if ext == "jpg" || ext == "jpeg" || ext == "png" then Success((decoded, ext))
    else Failure("unsupported image format: " + ext)
  }

  /** The encoders `WriteImage` knows. */
  datatype Format = Jpeg | Png

  /** `filepath.Join(dir, name)`, kept as its two parts. */
  datatype Path = Path(dir: string, name: string)

  /** What `WriteImage` does to the file system, in order. */
  datatype Effect =
    | MakeDir(dir: string)                          // os.MkdirAll
    | Create(path: Path)                            // os.Create
    | Encode(path: Path, format: Format, canvas: nat)  // jpeg.Encode / png.Encode of canvases[canvas]

  /** "jpg" is treated as "jpeg"; every other extension is kept as it is. */
  function NormalizeExt(ext: string): (r: string)
    ensures r != "jpg"
    ensures ext == "jpg" ==> r == "jpeg"
    ensures ext != "jpg" ==> r == ext
  {
    if ext == "jpg" then "jpeg" else ext
  }

  /** The encoder chosen by the `switch imgExt`; None for the `default` branch. */
  function FormatOf(ext: string): (r: Option<Format>)
    ensures r == Some(Jpeg) <==> ext == "jpeg"
    ensures r == Some(Png) <==> ext == "png"
  {
    if ext == "jpeg" then Some(Jpeg) else if ext == "png" then Some(Png) else None
  }

  /** The file a side is written to: `join(dir, side + "." + ext)`. */
  function SidePath(dir: string, side: string, ext: string): Path {
    Path(dir, side + "." + ext)
  }

  /** Distinct sides give distinct (directory, name) pairs, whatever the extension. */
  lemma SidePathsDistinct(dir: string, side: string, other: string, ext: string)
    ensures SidePath(dir, side, ext) == SidePath(dir, other, ext) <==> side == other
  {
    var tail := "." + ext;
    if SidePath(dir, side, ext) == SidePath(dir, other, ext) {
      assert side + "." + ext == side + tail && other + "." + ext == other + tail;
      assert |side| == |other|;
      assert side == (side + tail)[..|side|];
      assert other == (other + tail)[..|other|];
    }
  }

  /** The effects of the first n rounds of the write loop when the format is supported. */
  function Writes(dir: string, sides: seq<string>, ext: string, format: Format, n: nat): (r: seq<Effect>)
    requires n <= |sides|
    ensures |r| == 2 * n
  {
    if n == 0 then []
    else
      var path := SidePath(dir, sides[n - 1], ext);
      Writes(dir, sides, ext, format, n - 1) + [Create(path), Encode(path, format, n - 1)]
  }

  /**
   * Names are paired with canvases by position: round i creates the file
   * named after `sides[i]` and encodes canvas i into it.
   */
  lemma {:induction false} WritesPositional(dir: string, sides: seq<string>, ext: string, format: Format, n: nat, i: nat)
    requires i < n <= |sides|
    ensures Writes(dir, sides, ext, format, n)[2 * i] == Create(Path(dir, sides[i] + "." + ext))
    ensures Writes(dir, sides, ext, format, n)[2 * i + 1] == Encode(Path(dir, sides[i] + "." + ext), format, i)
  {
    if i < n - 1 {
      WritesPositional(dir, sides, ext, format, n - 1, i);
    }
  }

  /**
   * `WriteImage`: refuses a canvas list and a side list of different
   * lengths before touching the file system; otherwise creates the
   * directory if missing, and writes canvas i to `sides[i].ext`, with "jpg"
   * read as "jpeg". An extension other than jpeg or png stops the loop with
   * an error in its first round, after the first file was created.
   */
  method WriteImage<C>(canvases: seq<C>, writeDirPath: string, imgExt: string, sides: seq<string>, dirExists: bool)
    returns (err: Option<string>, effects: seq<Effect>)
    ensures |canvases| != |sides| ==> err == Some("mismatched face size and sides length") && effects == []
    ensures |canvases| == |sides| ==>
      var ext := NormalizeExt(imgExt);
      var prelude := if dirExists then [] else [MakeDir(writeDirPath)];
      match FormatOf(ext)
      case Some(format) =>
        err == None && effects == prelude + Writes(writeDirPath, sides, ext, format, |sides|)
      case None =>
        if |sides| == 0 then err == None && effects == prelude
        else (err == Some("unsupported image file format: " + ext)
              && effects == prelude + [Create(SidePath(writeDirPath, sides[0], ext))])
  {
    if |canvases| != |sides| {
      return Some("mismatched face size and sides length"), [];
    }
    effects := [];
    if !dirExists {
      effects := [MakeDir(writeDirPath)];
    }
    ghost var prelude := effects;
    var ext := imgExt;
    if ext == "jpg" {
      ext := "jpeg";
    }
    var i := 0;
    while i < |canvases|
      invariant 0 <= i <= |canvases|
      invariant i > 0 ==> FormatOf(ext).Some?
      invariant FormatOf(ext).Some? ==> effects == prelude + Writes(writeDirPath, sides, ext, FormatOf(ext).value, i)
      invariant FormatOf(ext).None? ==> effects == prelude
    {
      var side := sides[i];
      var path := Path(writeDirPath, side + "." + ext);
      effects := effects + [Create(path)];
      if ext == "jpeg" {
        effects := effects + [Encode(path, Jpeg, i)];
      } else if ext == "png" {
        effects := effects + [Encode(path, Png, i)];
      } else {
        return Some("unsupported image file format: " + ext), effects;
      }
      i := i + 1;
    }
    return None, effects;
  }
}
