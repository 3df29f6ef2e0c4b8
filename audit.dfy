/**
  `Auditor.compareImages` (src/Auditor.ts): crop both screenshots to the smaller
  height, count differing pixels, and on a positive count write a diff image whose
  name is derived from the origin screenshot's file name. Images are rasters of
  abstract pixel rows; the pixel comparison is a parameter standing for pixelmatch.
*/
module Audit {
  import opened Wrappers
  import opened Strings

  /** A decoded PNG: its width and its rows of pixels, top row first. */
  datatype Raster = Raster(width: nat, rows: seq<seq<int>>)

  function Height(r: Raster): nat {
    |r.rows|
  }

  /** `extract({ left: 0, top: 0, width: image.width, height })`: the top `height` rows, at the same width. */
  function CropTop(r: Raster, height: nat): (c: Raster)
    requires height <= Height(r)
    ensures c.width == r.width && Height(c) == height
    ensures forall i :: 0 <= i < height ==> c.rows[i] == r.rows[i]
  {
    Raster(r.width, r.rows[..height])
  }

  /** What a finished comparison reports: whether the images are the same, and the diff file written. */
  datatype Audit = Audit(same: bool, croppedOrigin: Raster, croppedDestination: Raster, diffFile: Option<string>)

  /** pixelmatch threw (for instance on images of different sizes). */
  datatype AuditError = PixelmatchFailed

  /**
    `compareImages(origin, destination)` for the images read from the two paths, where
    `pixelmatch(a, b)` is the differing-pixel count, or `None` when pixelmatch throws.
  */
  function CompareImages(originImage: Raster, destinationImage: Raster, origin: string,
                         pixelmatch: (Raster, Raster) -> Option<nat>): (r: Result<Audit, AuditError>)
    ensures r.Success? ==>
              && Height(r.value.croppedOrigin) == Height(r.value.croppedDestination) == MinHeight(originImage, destinationImage)
              && r.value.croppedOrigin.width == originImage.width
              && r.value.croppedDestination.width == destinationImage.width
    ensures var croppedOrigin := CropTop(originImage, MinHeight(originImage, destinationImage));
            var croppedDestination := CropTop(destinationImage, MinHeight(originImage, destinationImage));
            match pixelmatch(croppedOrigin, croppedDestination)
            case None => r == Failure(PixelmatchFailed)
            case Some(count) =>
              && r.Success?
              && r.value.croppedOrigin == croppedOrigin && r.value.croppedDestination == croppedDestination
              && (r.value.same <==> count == 0)
              && (r.value.diffFile.Some? <==> count > 0)
              && (r.value.diffFile.Some? ==> r.value.diffFile.value == DiffPath(origin))
  {
    var newHeight := MinHeight(originImage, destinationImage);
    var croppedOrigin := CropTop(originImage, newHeight);
    var croppedDestination := CropTop(destinationImage, newHeight);
    match pixelmatch(croppedOrigin, croppedDestination)
    case None => Failure(PixelmatchFailed)
    case Some(numDiffPixels) =>
      if numDiffPixels > 0 then Success(Audit(false, croppedOrigin, croppedDestination, Some(DiffPath(origin))))
      else Success(Audit(true, croppedOrigin, croppedDestination, None))
  }

  /** `Math.min(originImage.height, destinationImage.height)` */
  function MinHeight(a: Raster, b: Raster): (h: nat)
    ensures h <= Height(a) && h <= Height(b)
    ensures h == Height(a) || h == Height(b)
  {
    if Height(a) <= Height(b) then Height(a) else Height(b)
  }

  /** Two images of the same height are compared whole. */
  lemma SameHeightKeepsRows(originImage: Raster, destinationImage: Raster)
    requires Height(originImage) == Height(destinationImage)
    ensures CropTop(originImage, MinHeight(originImage, destinationImage)) == originImage
    ensures CropTop(destinationImage, MinHeight(originImage, destinationImage)) == destinationImage
  {
    assert originImage.rows[..Height(originImage)] == originImage.rows;
    assert destinationImage.rows[..Height(destinationImage)] == destinationImage.rows;
  }

  /**
    The diff image's path: 'images/diff/' + the text after the last '/' of the origin
    path, cut before its last '.', + '_diff.jpg'. Without a '.' the cut keeps nothing.
  */
  function DiffPath(origin: string): (p: string)
    ensures |p| >= |"images/diff/_diff.jpg"|
    ensures p[..12] == "images/diff/" && p[|p| - 9..] == "_diff.jpg"
  {
    var filename := Substring(origin, LastIndexOfChar(origin, '/') + 1, |origin|);
    var stem := Substring(filename, 0, LastIndexOfChar(filename, '.'));
    "images/diff/" + stem + "_diff.jpg"
  }

  /** For a screenshot "dir/name.ext" the diff is "images/diff/name_diff.jpg". */
  lemma DiffPathOfScreenshot(dir: string, name: string, ext: string)
    requires '/' !in name && '/' !in ext && '.' !in ext
    ensures DiffPath(dir + "/" + name + "." + ext) == "images/diff/" + name + "_diff.jpg"
  {
    var origin := dir + "/" + name + "." + ext;
    var slash := |dir|;
    assert origin[slash] == '/';
    LastIndexAfter(origin, '/', slash);
    var filename := origin[slash + 1..];
    assert Substring(origin, slash + 1, |origin|) == filename;
    assert filename == name + "." + ext;
    var dot := |name|;
    assert filename[dot] == '.';
    LastIndexAfter(filename, '.', dot);
    assert Substring(filename, 0, dot) == name;
  }

  /** When `s[k] == c` and no later character is `c`, `k` is the last index of `c`. */
  lemma LastIndexAfter(s: string, c: char, k: nat)
    requires k < |s| && s[k] == c
    requires forall j :: k < j < |s| ==> s[j] != c
    ensures LastIndexOfChar(s, c) == k
  {
  }

  /** A file name without '.' gives the diff path "images/diff/_diff.jpg". */
  lemma DiffPathWithoutDot(origin: string)
    requires '.' !in origin[LastIndexOfChar(origin, '/') + 1..]
    ensures DiffPath(origin) == "images/diff/_diff.jpg"
  {
    var filename := Substring(origin, LastIndexOfChar(origin, '/') + 1, |origin|);
    assert LastIndexOfChar(filename, '.') == -1 by {
      assert filename == origin[LastIndexOfChar(origin, '/') + 1..];
      LastIndexAbsent(filename, '.');
    }
    EmptyStemPath(origin, filename);
  }

  /** The diff path of a file name whose stem is empty. */
  lemma EmptyStemPath(origin: string, filename: string)
    requires filename == Substring(origin, LastIndexOfChar(origin, '/') + 1, |origin|)
    requires LastIndexOfChar(filename, '.') == -1
    ensures DiffPath(origin) == "images/diff/_diff.jpg"
  {
    assert Substring(filename, 0, -1) == [];
    assert "images/diff/" + [] + "_diff.jpg" == "images/diff/_diff.jpg";
  }

  /** A character that does not occur has no last index. */
  lemma {:induction false} LastIndexAbsent(s: string, c: char)
    requires c !in s
    ensures LastIndexOfChar(s, c) == -1
  {
    if |s| > 0 {
      assert forall i :: 0 <= i < |s| - 1 ==> s[..|s| - 1][i] == s[i];
      LastIndexAbsent(s[..|s| - 1], c);
    }
  }
}
