/**
 * The decision rules of the command-line front end (cmd/root.go): which
 * side names are valid, which directory entries are image files, how the
 * side list is defaulted and validated, and the exactly-one-input rule.
 */
module Cli {
  import opened Wrappers
  import opened FaceNames

  const DefaultEdgeLen := 1024

  /** `validSides`, which is also the default side list, in this order. */
  const ValidSides: seq<string> := ["front", "back", "left", "right", "top", "bottom"]

  /** `isValidSide`: a linear search of `validSides`. */
  method IsValidSide(side: string) returns (valid: bool)
    ensures valid <==> side in ValidSides
  {
    var k := 0;
    while k < |ValidSides|
      invariant 0 <= k <= |ValidSides|
      invariant side !in ValidSides[..k]
    {
      if ValidSides[k] == side {
        return true;
      }
      k := k + 1;
    }
    return false;
  }

  /** ASCII lower-casing of one character. */
  function LowerChar(c: char): char {
    if 'A' <= c <= 'Z' then (c as int + 32) as char else c
  }

  /** Lower-casing leaves the separators '/' and '.' alone and creates no new ones. */
  lemma LowerCharSeparators(c: char)
    ensures LowerChar(c) == '/' <==> c == '/'
    ensures LowerChar(c) == '.' <==> c == '.'
  {
  }

  /** `strings.ToLower`, restricted to ASCII letters. */
  function ToLower(s: string): (r: string)
    ensures |r| == |s|
  {
    seq(|s|, k requires 0 <= k < |s| => LowerChar(s[k]))
  }

  /** After lower-casing no ASCII capital remains, and every other character is kept. */
  lemma ToLowerLowers(s: string)
    ensures forall k | 0 <= k < |s| :: !('A' <= ToLower(s)[k] <= 'Z')
    ensures forall k | 0 <= k < |s| && !('A' <= s[k] <= 'Z') :: ToLower(s)[k] == s[k]
  {
  }

  /**
   * `filepath.Ext`: the suffix of the path from its last '.', looking no
   * further back than the last '/'; empty when there is no such dot.
   */
  function Ext(path: string): (e: string)
    ensures |e| <= |path| && e == path[|path| - |e|..]
    ensures e != [] ==> e[0] == '.' && '.' !in e[1..]
    ensures '/' !in e
  {
    if |path| == 0 || path[|path| - 1] == '/' then ""
    else if path[|path| - 1] == '.' then "."
    else
      var e := Ext(path[..|path| - 1]);
      if e == "" then "" else e + [path[|path| - 1]]
  }

  /** The extensions `isImageFile` accepts, after lower-casing. */
  const ImageExtensions: set<string> := {".jpg", ".jpeg", ".png"}

  /** `isImageFile`: the lower-cased extension of the entry's name is .jpg, .jpeg or .png. */
  predicate IsImageFile(name: string) {
    ToLower(Ext(name)) in ImageExtensions
  }

  /** `filepath.Ext` looks at the last character first: one step of its scan. */
  lemma ExtSnoc(s: string, c: char)
    ensures Ext(s + [c]) == if c == '/' then "" else if c == '.' then "." else
      if Ext(s) == "" then "" else Ext(s) + [c]
  {
    assert (s + [c])[..|s|] == s;
  }

  /** Lower-casing works character by character from the end. */
  lemma ToLowerSnoc(s: string, c: char)
    ensures ToLower(s + [c]) == ToLower(s) + [LowerChar(c)]
  {
  }

  /** A name ending in a dot-extension (no further '.' or '/') has exactly that extension. */
  lemma {:induction false} ExtOfSuffix(stem: string, e: string)
    requires |e| >= 1 && e[0] == '.' && '.' !in e[1..] && '/' !in e
    ensures Ext(stem + e) == e
  {
    var last := e[|e| - 1];
    if |e| == 1 {
      assert stem + e == stem + [last];
      ExtSnoc(stem, last);
    } else {
      var front := e[..|e| - 1];
      assert front[1..] == e[1..|e| - 1];
      assert last in e[1..];
      ExtOfSuffix(stem, front);
      assert stem + e == (stem + front) + [last];
      ExtSnoc(stem + front, last);
      assert e == front + [last];
    }
  }

  /** Lower-casing a path lower-cases its extension and nothing moves. */
  lemma {:induction false} ExtOfLower(path: string)
    ensures Ext(ToLower(path)) == ToLower(Ext(path))
  {
    if |path| > 0 {
      var prefix, last := path[..|path| - 1], path[|path| - 1];
      assert path == prefix + [last];
      ToLowerSnoc(prefix, last);
      LowerCharSeparators(last);
      ExtSnoc(prefix, last);
      ExtSnoc(ToLower(prefix), LowerChar(last));
      if last != '/' && last != '.' {
        ExtOfLower(prefix);
        ToLowerSnoc(Ext(prefix), last);
      }
    }
  }

  /** Lower-casing twice is lower-casing once. */
  lemma LowerIdempotent(s: string)
    ensures ToLower(ToLower(s)) == ToLower(s)
  {
  }

  /**
   * `isImageFile` ignores case: a name and its lower-cased form are image
   * files together, so "a.JPG" and "a.jpg" are treated alike.
   */
  lemma IsImageFileIgnoresCase(name: string)
    ensures IsImageFile(ToLower(name)) == IsImageFile(name)
  {
    ExtOfLower(name);
    LowerIdempotent(Ext(name));
  }

  /**
   * Any name that ends in an image extension, written in any mix of cases,
   * is an image file; and every image file's name ends in such an extension.
   */
  lemma ImageFileSuffix(stem: string, e: string, name: string)
    requires ToLower(e) in ImageExtensions
    ensures IsImageFile(stem + e)
    ensures IsImageFile(name) ==> exists k | 0 <= k <= |name| :: ToLower(name[k..]) in ImageExtensions
  {
    var l := ToLower(e);
    assert l == ".jpg" || l == ".jpeg" || l == ".png";
    assert l[0] == '.' && l[0] == LowerChar(e[0]);
    forall k | 1 <= k < |e| ensures e[k] != '.' && e[k] != '/' {
      assert l[k] == LowerChar(e[k]) && l[k] != '.' && l[k] != '/';
    }
    assert '.' !in e[1..] && '/' !in e;
    ExtOfSuffix(stem, e);
    var x := Ext(name);
    if IsImageFile(name) {
      assert name[|name| - |x|..] == x;
    }
  }

  /** `processSingleImage`'s error message for an invalid side. */
  function InvalidSideMessage(side: string): string {
    "Invalid side specified: " + side + ". Valid sides are [front back left right top bottom]"
  }

  /** The first entry of `sides` that is not a valid side, if any. */
  function FirstInvalid(sides: seq<string>): (r: Option<nat>)
    ensures r.None? <==> forall k | 0 <= k < |sides| :: sides[k] in ValidSides
    ensures r.Some? ==> (r.value < |sides| && sides[r.value] !in ValidSides
                         && forall k | 0 <= k < r.value :: sides[k] in ValidSides)
  {
    if sides == [] then None
    else if sides[0] !in ValidSides then Some(0)
    else match FirstInvalid(sides[1..])
      case None => None
      case Some(k) => Some(k + 1)
  }

  /**
   * The side rule of `processSingleImage`: an empty list becomes all six
   * valid sides in their fixed order, a list of valid sides is kept as
   * given, and the first invalid side is a fatal error naming it.
   */
  function ResolveSides(sides: seq<string>): (r: Result<seq<string>>)
    ensures sides == [] ==> r == Success(ValidSides)
    ensures sides != [] && r.Success? ==> r.value == sides
    ensures r.Success? ==> |r.value| >= 1 && forall k | 0 <= k < |r.value| :: r.value[k] in ValidSides
    ensures r.Failure? <==> exists k | 0 <= k < |sides| :: sides[k] !in ValidSides
  {
    if sides == [] then Success(ValidSides)
    else match FirstInvalid(sides)
      case None => Success(sides)
      case Some(k) => Failure(InvalidSideMessage(sides[k]))
  }

  /**
   * The default side list names canvas f, which holds face `faceMap[f]`,
   * after `validSides[f]`, since `WriteImage` pairs the two lists by
   * position: the back, left and front faces are written to the files
   * front, back and left, and only right, top and bottom match.
   */
  lemma DefaultSidesPairing(dir: string, ext: string, format: Format, f: nat)
    requires f < FaceLen
    ensures Writes(dir, ValidSides, ext, format, FaceLen)[2 * f + 1]
         == Encode(Path(dir, ValidSides[f] + "." + ext), format, f)
    ensures ValidSides[f] == FaceMap[f] <==> f >= 3
  {
    WritesPositional(dir, ValidSides, ext, format, FaceLen, f);
  }

  /** The input chosen by `Run`. */
  datatype Input = SingleFile(path: string) | Directory(path: string)

  /**
   * `Run` needs exactly one of an input file and an input directory; none
   * or both is a fatal error.
   */
  function SelectInput(inFilePath: string, inDirPath: string): (r: Result<Input>)
    ensures r.Success? <==> (inFilePath == "") != (inDirPath == "")
    ensures r.Success? && r.value.SingleFile? ==> r.value.path == inFilePath
    ensures r.Success? && r.value.Directory? ==> r.value.path == inDirPath && inFilePath == ""
  {
    if inFilePath == "" && inDirPath == "" then Failure("Need an input image file path or input directory")
    else if |inFilePath| > 0 && |inDirPath| > 0 then Failure("Need only one path, not both")
    else if inFilePath != "" then Success(SingleFile(inFilePath))
    else Success(Directory(inDirPath))
  }

  /** A directory entry as `os.ReadDir` lists it. */
  datatype DirEntry = DirEntry(name: string, isDir: bool)

  /** The entries `processDirectory` hands to a worker: files that are image files. */
  predicate Selected(e: DirEntry) {
    !e.isDir && IsImageFile(e.name)
  }

  /** The input paths `processDirectory` dispatches, in directory order. */
  function Dispatched(inDir: string, entries: seq<DirEntry>): (r: seq<Path>)
    ensures |r| <= |entries|
  {
    if entries == [] then []
    else
      var last := entries[|entries| - 1];
      Dispatched(inDir, entries[..|entries| - 1]) + (if Selected(last) then [Path(inDir, last.name)] else [])
  }

  /**
   * Every dispatched path comes from a selected entry, and every selected
   * entry is dispatched.
   */
  lemma {:induction false} DispatchedExactly(inDir: string, entries: seq<DirEntry>)
    ensures forall p | p in Dispatched(inDir, entries) ::
      exists e | e in entries :: Selected(e) && p == Path(inDir, e.name)
    ensures forall e | e in entries && Selected(e) :: Path(inDir, e.name) in Dispatched(inDir, entries)
  {
    if entries != [] {
      var prefix := entries[..|entries| - 1];
      var last := entries[|entries| - 1];
      DispatchedExactly(inDir, prefix);
      assert entries == prefix + [last];
      assert forall e | e in prefix :: e in entries;
    }
  }

  /** `processDirectory`'s loop over the entries, one worker per selected entry. */
  method ProcessDirectory(inDir: string, entries: seq<DirEntry>) returns (inPaths: seq<Path>)
    ensures inPaths == Dispatched(inDir, entries)
  {
    inPaths := [];
    var k := 0;
    while k < |entries|
      invariant 0 <= k <= |entries|
      invariant inPaths == Dispatched(inDir, entries[..k])
    {
      var file := entries[k];
      assert entries[..k + 1][..k] == entries[..k] && entries[..k + 1][k] == file;
      if !file.isDir && IsImageFile(file.name) {
        inPaths := inPaths + [Path(inDir, file.name)];
      }
      k := k + 1;
    }
    assert entries[..|entries|] == entries;
  }

  /** The package-level flag variables of cmd/root.go. */
  class Options {
    var inFilePath: string
    var inDirPath: string
    var outFileDir: string
    var edgeLen: int
    var sides: seq<string>

    /** The flag defaults: no input, output to ".", edge 1024, no sides. */
    constructor ()
      ensures inFilePath == "" && inDirPath == "" && outFileDir == "."
      ensures edgeLen == DefaultEdgeLen && sides == []
    {
      inFilePath, inDirPath, outFileDir := "", "", ".";
      edgeLen := DefaultEdgeLen;
      sides := [];
    }

    /**
     * The side step of `processSingleImage`: fills in the default sides or
     * checks every given side, stopping at the first invalid one.
     */
    method ApplySides() returns (err: Option<string>)
      modifies this`sides
      ensures ResolveSides(old(sides)).Success? ==> err == None && sides == ResolveSides(old(sides)).value
      ensures ResolveSides(old(sides)).Failure? ==>
        err == Some(ResolveSides(old(sides)).error) && sides == old(sides)
    {
      if |sides| == 0 {
        sides := ValidSides;
        return None;
      }
      var k := 0;
      while k < |sides|
        invariant 0 <= k <= |sides| && sides == old(sides)
        invariant forall j | 0 <= j < k :: sides[j] in ValidSides
      {
        var valid := IsValidSide(sides[k]);
        if !valid {
          return Some(InvalidSideMessage(sides[k]));
        }
        k := k + 1;
      }
      return None;
    }
  }
}
