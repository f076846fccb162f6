/**
 * The dummy file generator: the byte count of a size and unit, the
 * validation of the form, and the files a download produces (one file, or
 * three for a boundary test at minus one, exactly and plus one byte).
 * The size field's `parseFloat` is a parameter: `None` stands for NaN.
 */
module DummyFileCreator {
  import opened Options
  import opened Strings

  datatype SizeUnit = B | KB | MB | GB

  /** The extensions offered by the form, grouped as text, image, video and audio. */
  datatype FileExtension =
    | Txt | Log | Csv | Json | Xml | Dat
    | Jpg | Png | Gif | Bmp | Svg
    | Mp4 | Avi | Mov | Mkv
    | Mp3 | Wav | Ogg | M4a

  function ExtensionName(e: FileExtension): (name: string)
    ensures |name| == 3 || |name| == 4
    ensures '.' !in name
  {
    match e
    case Txt => "txt" case Log => "log" case Csv => "csv" case Json => "json" case Xml => "xml"
    case Dat => "dat" case Jpg => "jpg" case Png => "png" case Gif => "gif" case Bmp => "bmp"
    case Svg => "svg" case Mp4 => "mp4" case Avi => "avi" case Mov => "mov" case Mkv => "mkv"
    case Mp3 => "mp3" case Wav => "wav" case Ogg => "ogg" case M4a => "m4a"
  }

  /** The `multipliers` table of `calculateBytes`. */
  function Multiplier(u: SizeUnit): (m: nat)
    ensures m >= 1
  {
    match u
    case B => 1
    case KB => 1024
    case MB => 1024 * 1024
    case GB => 1024 * 1024 * 1024
  }

  /** The next smaller unit. */
  function Smaller(u: SizeUnit): SizeUnit
    requires u != B
  {
    match u
    case KB => B
    case MB => KB
    case GB => MB
  }

  /** Each unit is 1024 times the one below it, starting from one byte. */
  lemma MultiplierSteps(u: SizeUnit)
    ensures u == B ==> Multiplier(u) == 1
    ensures u != B ==> Multiplier(u) == 1024 * Multiplier(Smaller(u))
  {
  }

  /** `calculateBytes`: `Math.floor(size * multiplier)`, over exact reals. */
  function CalculateBytes(size: real, u: SizeUnit): (r: int)
    ensures r as real <= size * Multiplier(u) as real < r as real + 1.0
  {
    (size * Multiplier(u) as real).Floor
  }

  /** A whole number of units is exactly that many times the multiplier. */
  lemma CalculateBytesWhole(n: int, u: SizeUnit)
    ensures CalculateBytes(n as real, u) == n * Multiplier(u)
  {
    var m := Multiplier(u);
    assert (n as real) * (m as real) == (n * m) as real;
  }

  /** A larger size never gives fewer bytes, and a positive size never gives a negative count. */
  lemma CalculateBytesMonotone(s1: real, s2: real, u: SizeUnit)
    requires s1 <= s2
    ensures CalculateBytes(s1, u) <= CalculateBytes(s2, u)
    ensures 0.0 <= s1 ==> 0 <= CalculateBytes(s1, u)
  {
    var m := Multiplier(u) as real;
    assert s1 * m <= s2 * m;
  }

  /** Why a download is refused (the two `alert` branches). */
  datatype Rejection = MissingFilename | InvalidSize

  /** One file handed to `createDummyFile`. */
  datatype PlannedFile = PlannedFile(name: string, bytes: int)

  datatype DownloadOutcome = Rejected(reason: Rejection) | Planned(files: seq<PlannedFile>)

  /** `${filename}${suffix}.${extension}`. */
  function FullFilename(filename: string, suffix: string, e: FileExtension): (name: string)
    ensures EndsWith(name, "." + ExtensionName(e))
    ensures StartsWith(name, filename + suffix)
    ensures |name| == |filename| + |suffix| + 1 + |ExtensionName(e)|
  {
    filename + suffix + "." + ExtensionName(e)
  }

  /** The size check shared by `handleDownload` and `displayBytes`. */
  predicate ValidSize(sizeValue: Option<real>)
  {
    sizeValue.Some? && sizeValue.value > 0.0
  }

  /** `handleDownload`, with the downloads it triggers returned as a plan. */
  function HandleDownload(filename: string, sizeValue: Option<real>, u: SizeUnit, e: FileExtension,
                          boundaryTest: bool): (o: DownloadOutcome)
    ensures IsBlank(filename) <==> o == Rejected(MissingFilename)
    ensures o == Rejected(InvalidSize) <==> !IsBlank(filename) && !ValidSize(sizeValue)
    ensures o.Planned? ==>
              var bytes := CalculateBytes(sizeValue.value, u);
              PlannedFile(FullFilename(filename, "", e), bytes) in o.files
    ensures o.Planned? && !boundaryTest ==>
              o.files == [PlannedFile(FullFilename(filename, "", e), CalculateBytes(sizeValue.value, u))]
  {
    TrimEmptyIffBlank(filename);
    if Trim(filename) == [] then Rejected(MissingFilename)
    else if sizeValue.None? || sizeValue.value <= 0.0 then Rejected(InvalidSize)
    else
      var bytes := CalculateBytes(sizeValue.value, u);
      if boundaryTest then
        var minusOneBytes := if bytes - 1 > 0 then bytes - 1 else 0;
        Planned((if minusOneBytes > 0 then [PlannedFile(FullFilename(filename, "_minus1", e), minusOneBytes)] else [])
                + [PlannedFile(FullFilename(filename, "", e), bytes),
                   PlannedFile(FullFilename(filename, "_plus1", e), bytes + 1)])
      else
        Planned([PlannedFile(FullFilename(filename, "", e), bytes)])
  }

  /**
   * A boundary test plans the files one byte below, at and one byte above the
   * requested size, in that order: three files when the size is at least two
   * bytes, otherwise only the last two, since the one-below file is skipped
   * when it would be empty. Only the unsuffixed file can be empty.
   */
  lemma BoundaryPlan(filename: string, sizeValue: Option<real>, u: SizeUnit, e: FileExtension)
    requires !IsBlank(filename) && ValidSize(sizeValue)
    ensures var o := HandleDownload(filename, sizeValue, u, e, true);
            var bytes := CalculateBytes(sizeValue.value, u);
            && o.Planned?
            && 0 <= bytes
            && |o.files| == (if bytes >= 2 then 3 else 2)
            && (forall i :: 0 <= i < |o.files| - 1 ==> o.files[i].bytes + 1 == o.files[i + 1].bytes)
            && o.files[|o.files| - 2] == PlannedFile(FullFilename(filename, "", e), bytes)
            && o.files[|o.files| - 1] == PlannedFile(FullFilename(filename, "_plus1", e), bytes + 1)
            && (bytes >= 2 ==> o.files[0] == PlannedFile(FullFilename(filename, "_minus1", e), bytes - 1))
            && (forall i :: 0 <= i < |o.files| && o.files[i].bytes == 0 ==>
                              o.files[i].name == FullFilename(filename, "", e))
  {
    CalculateBytesMonotone(0.0, sizeValue.value, u);
    CalculateBytesWhole(0, u);
    TrimEmptyIffBlank(filename);
  }

  /**
   * `displayBytes`: the byte count shown under the size field, 0 for a size
   * that is NaN or not positive.
   */
  function DisplayBytes(sizeValue: Option<real>, u: SizeUnit): (n: int)
    ensures !ValidSize(sizeValue) ==> n == 0
    ensures ValidSize(sizeValue) ==> n == CalculateBytes(sizeValue.value, u)
    ensures 0 <= n
  {
    if sizeValue.None? || sizeValue.value <= 0.0 then 0
    else
      CalculateBytesMonotone(0.0, sizeValue.value, u);
      CalculateBytesWhole(0, u);
      CalculateBytes(sizeValue.value, u)
  }

  /** The count on display is the size of the unsuffixed file that an accepted download produces. */
  lemma DisplayMatchesDownload(filename: string, sizeValue: Option<real>, u: SizeUnit, e: FileExtension,
                               boundaryTest: bool)
    requires HandleDownload(filename, sizeValue, u, e, boundaryTest).Planned?
    ensures PlannedFile(FullFilename(filename, "", e), DisplayBytes(sizeValue, u))
            in HandleDownload(filename, sizeValue, u, e, boundaryTest).files
  {
  }
}
