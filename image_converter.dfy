/**
 * The decisions of the image converter: which conversion path a request
 * takes, how a raster result is encoded, the canvas size of an SVG source,
 * and the name of the downloaded file. The canvas, image decoding, tracing
 * and the download itself happen in the browser and are not modelled.
 */
module ImageConverter {
  import opened Options
  import opened Strings

  datatype OutputFormat = Jpeg | Png | Webp | Bmp | Svg

  /** The format's string value, used as the file extension. */
  function FormatName(f: OutputFormat): (name: string)
    ensures 3 <= |name| <= 4
    ensures '.' !in name && '/' !in name
  {
    match f
    case Jpeg => "jpeg"
    case Png => "png"
    case Webp => "webp"
    case Bmp => "bmp"
    case Svg => "svg"
  }

  /** The three conversion functions `handleConvert` can call. */
  datatype Route = ConvertToSvg | ConvertSvgToRaster | ConvertRasterImage

  /**
   * The conversion `handleConvert` starts for the loaded data URL, or `None`
   * when there is no source image (a null or empty data URL).
   */
  function ConvertRoute(sourceImage: Option<string>, f: OutputFormat): (r: Option<Route>)
    ensures r.None? <==> sourceImage.None? || sourceImage.value == []
    ensures r.Some? && f == Svg ==> r.value == ConvertToSvg
    ensures r == Some(ConvertSvgToRaster) <==>
              sourceImage.Some? && sourceImage.value != [] && f != Svg && StartsWith(sourceImage.value, "data:image/svg+xml")
    ensures r == Some(ConvertRasterImage) <==>
              sourceImage.Some? && sourceImage.value != [] && f != Svg && !StartsWith(sourceImage.value, "data:image/svg+xml")
  {
    if sourceImage.None? || sourceImage.value == [] then None
    else if f == Svg then Some(ConvertToSvg)
    else if StartsWith(sourceImage.value, "data:image/svg+xml") then Some(ConvertSvgToRaster)
    else Some(ConvertRasterImage)
  }

  /** The `mimeType` chain shared by both raster paths. */
  function MimeType(f: OutputFormat): (mime: string)
    ensures StartsWith(mime, "image/")
    ensures f == Svg ==> mime == "image/bmp"
  {
    match f
    case Jpeg => "image/jpeg"
    case Png => "image/png"
    case Webp => "image/webp"
    case _ => "image/bmp"
  }

  /** Every raster format is encoded as the image type of its own name. */
  lemma MimeTypeOfRasterFormat(f: OutputFormat)
    requires f != Svg
    ensures MimeType(f) == "image/" + FormatName(f)
  {
  }

  /** How a raster path encodes its canvas: type, quality and white background. */
  datatype Encoding = Encoding(mime: string, quality: Option<real>, whiteFill: bool)

  function RasterEncoding(f: OutputFormat): (e: Encoding)
    ensures e.mime == MimeType(f)
    ensures e.quality.Some? <==> f == Jpeg
    ensures e.quality == (if f == Jpeg then Some(0.9) else None)
    ensures e.whiteFill <==> f == Jpeg
  {
    Encoding(MimeType(f), if f == Jpeg then Some(0.9) else None, f == Jpeg)
  }

  /** The canvas of the SVG path: `img.width || 800` by `img.height || 600`. */
  function SvgCanvasSize(width: nat, height: nat): (size: (nat, nat))
    ensures size.0 > 0 && size.1 > 0
    ensures width > 0 ==> size.0 == width
    ensures height > 0 ==> size.1 == height
    ensures width == 0 ==> size.0 == 800
    ensures height == 0 ==> size.1 == 600
  {
    (if width > 0 then width else 800, if height > 0 then height else 600)
  }

  /**
   * Where `/\.[^/.]+$/` matches `s`: a dot followed, up to the end, by at
   * least one character that is neither a dot nor a slash.
   */
  predicate IsExtensionAt(s: string, i: int)
  {
    0 <= i < |s| - 1 && s[i] == '.' && forall j :: i < j < |s| ==> s[j] != '.' && s[j] != '/'
  }

  /** The pattern matches in at most one place. */
  lemma ExtensionAtUnique(s: string, i: int, k: int)
    requires IsExtensionAt(s, i) && IsExtensionAt(s, k)
    ensures i == k
  {
    assert s[i] == '.' && s[k] == '.';
  }

  /** Scans `s` backwards from position `k`, past characters that may follow the dot. */
  function ExtensionFrom(s: string, k: nat): (r: Option<nat>)
    requires k <= |s|
    requires forall j :: k <= j < |s| ==> s[j] != '.' && s[j] != '/'
    ensures r.Some? ==> IsExtensionAt(s, r.value)
    ensures r.None? ==> forall i :: 0 <= i < |s| ==> !IsExtensionAt(s, i)
  {
    if k == 0 then None
    else if s[k - 1] == '/' then
      assert forall i :: 0 <= i < k - 1 ==> !IsExtensionAt(s, i) by {
        forall i | 0 <= i < k - 1 ensures !IsExtensionAt(s, i) {
          assert s[k - 1] == '/';
        }
      }
      None
    else if s[k - 1] == '.' then
      if k < |s| then Some(k - 1)
      else
        assert forall i :: 0 <= i < k - 1 ==> !IsExtensionAt(s, i) by {
          forall i | 0 <= i < k - 1 ensures !IsExtensionAt(s, i) {
            assert s[k - 1] == '.';
          }
        }
        None
    else ExtensionFrom(s, k - 1)
  }

  /** `sourceFileName.replace(/\.[^/.]+$/, '')`. */
  function StripExtension(s: string): (r: string)
    ensures StartsWith(s, r)
    ensures r == s <==> forall i :: 0 <= i < |s| ==> !IsExtensionAt(s, i)
    ensures r != s ==> IsExtensionAt(s, |r|)
  {
    match ExtensionFrom(s, |s|)
    case None => s
    case Some(i) => s[..i]
  }

  /**
   * Exactly one extension goes: a name made of a base, a dot and an
   * extension of characters other than dots and slashes loses only that
   * extension, whatever dots the base holds.
   */
  lemma StripLastExtension(base: string, ext: string)
    requires ext != []
    requires '.' !in ext && '/' !in ext
    ensures StripExtension(base + "." + ext) == base
  {
    var s := base + "." + ext;
    assert IsExtensionAt(s, |base|) by {
      forall j | |base| < j < |s| ensures s[j] != '.' && s[j] != '/' {
        assert s[j] == ext[j - |base| - 1];
      }
    }
    var r := StripExtension(s);
    ExtensionAtUnique(s, |r|, |base|);
    assert s[..|base|] == base;
  }

  /** `"a.tar.gz"` becomes `"a.tar"`. */
  lemma StripOneOfTwoExtensions()
    ensures StripExtension("a.tar.gz") == "a.tar"
  {
    assert "a.tar.gz" == "a.tar" + "." + "gz";
    StripLastExtension("a.tar", "gz");
  }

  /** `${baseFileName}.${outputFormat}`. */
  function DownloadName(sourceFileName: string, f: OutputFormat): (name: string)
    ensures EndsWith(name, "." + FormatName(f))
    ensures StartsWith(name, StripExtension(sourceFileName))
  {
    StripExtension(sourceFileName) + "." + FormatName(f)
  }

  /** Converting a downloaded file again keeps its base name: only the format extension is replaced. */
  lemma DownloadNameBase(sourceFileName: string, f: OutputFormat, g: OutputFormat)
    ensures StripExtension(DownloadName(sourceFileName, f)) == StripExtension(sourceFileName)
    ensures DownloadName(DownloadName(sourceFileName, f), g) == DownloadName(sourceFileName, g)
  {
    StripLastExtension(StripExtension(sourceFileName), FormatName(f));
  }
}
