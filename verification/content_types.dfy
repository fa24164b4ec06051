/**
 * The two fixed tables of ExcelPicture: file extension -> MIME content type
 * (GetContentType) and MIME content type -> encoder format (GetImageFormat).
 * Both first lower-case their argument with the invariant culture; the model
 * lower-cases the ASCII letters A-Z.
 */
module ContentTypes {
  import opened Skia

  /** Invariant-culture lower-casing of one character (ASCII letters). */
  function LowerChar(c: char): (r: char)
    ensures 'A' <= c <= 'Z' ==> 'a' <= r <= 'z' && r as int - c as int == 32
    ensures !('A' <= c <= 'Z') ==> r == c
  {
    if 'A' <= c <= 'Z' then (c as int + 32) as char else c
  }

  /** `string.ToLower(CultureInfo.InvariantCulture)`, one character at a time. */
  function ToLower(s: string): (r: string)
    ensures |r| == |s|
    ensures forall i :: 0 <= i < |s| ==> r[i] == LowerChar(s[i])
  {
    seq(|s|, i requires 0 <= i < |s| => LowerChar(s[i]))
  }

  /** A string with no upper-case ASCII letter. */
  predicate IsLower(s: string)
  {
    forall i :: 0 <= i < |s| ==> !('A' <= s[i] <= 'Z')
  }

  /** Two strings that differ at most in the case of their ASCII letters. */
  predicate SameIgnoringCase(a: string, b: string)
  {
    |a| == |b| && forall i :: 0 <= i < |a| ==> LowerChar(a[i]) == LowerChar(b[i])
  }

  /** Lower-casing is exactly the identity on strings that are already lower case. */
  lemma ToLowerFixesLower(s: string)
    ensures ToLower(s) == s <==> IsLower(s)
  {
    if ToLower(s) == s {
      forall i | 0 <= i < |s| ensures !('A' <= s[i] <= 'Z') {
        assert ToLower(s)[i] == LowerChar(s[i]);
      }
    }
  }

  /** Lower-casing twice is lower-casing once. */
  lemma ToLowerIdempotent(s: string)
    ensures IsLower(ToLower(s))
    ensures ToLower(ToLower(s)) == ToLower(s)
  {
    ToLowerFixesLower(ToLower(s));
  }

  /** Strings equal up to case lower-case to the same string, and only those. */
  lemma ToLowerEqualIffSameIgnoringCase(a: string, b: string)
    ensures ToLower(a) == ToLower(b) <==> SameIgnoringCase(a, b)
  {
    if ToLower(a) == ToLower(b) {
      forall i | 0 <= i < |a| ensures LowerChar(a[i]) == LowerChar(b[i]) {
        assert ToLower(a)[i] == ToLower(b)[i];
      }
    }
  }

  const DefaultContentType: string := "image/jpeg"

  /** Every content type the extension table can produce. */
  const KnownContentTypes: set<string> := {
    "image/bmp", "image/jpeg", "image/gif", "image/png", "image/cgm", "image/x-emf",
    "image/x-eps", "image/x-pcx", "image/x-tga", "image/x-tiff", "image/x-wmf"
  }

  /** The extension table (lower-case keys), independent of the switch below. */
  const ExtensionContentTypes: map<string, string> := map[
    ".bmp" := "image/bmp",
    ".jpg" := "image/jpeg",
    ".jpeg" := "image/jpeg",
    ".gif" := "image/gif",
    ".png" := "image/png",
    ".cgm" := "image/cgm",
    ".emf" := "image/x-emf",
    ".eps" := "image/x-eps",
    ".pcx" := "image/x-pcx",
    ".tga" := "image/x-tga",
    ".tif" := "image/x-tiff",
    ".tiff" := "image/x-tiff",
    ".wmf" := "image/x-wmf"
  ]

  /**
   * ExcelPicture.GetContentType: total, case-insensitive, table-driven, and
   * every extension outside the table falls back to image/jpeg.
   */
  function GetContentType(extension: string): (r: string)
    ensures |r| > 6 && r[..6] == "image/"
  {
    match ToLower(extension)
    case ".bmp" => "image/bmp"
    case ".jpg" | ".jpeg" => "image/jpeg"
    case ".gif" => "image/gif"
    case ".png" => "image/png"
    case ".cgm" => "image/cgm"
    case ".emf" => "image/x-emf"
    case ".eps" => "image/x-eps"
    case ".pcx" => "image/x-pcx"
    case ".tga" => "image/x-tga"
    case ".tif" | ".tiff" => "image/x-tiff"
    case ".wmf" => "image/x-wmf"
    case _ => "image/jpeg"
  }

  /**
   * The switch agrees with the table: a listed extension (in any case) gets
   * its entry, every other extension the default, and the result is always
   * one of the known content types.
   */
  lemma ContentTypeTable(extension: string)
    ensures ToLower(extension) in ExtensionContentTypes ==>
              GetContentType(extension) == ExtensionContentTypes[ToLower(extension)]
    ensures ToLower(extension) !in ExtensionContentTypes ==> GetContentType(extension) == DefaultContentType
    ensures GetContentType(extension) in KnownContentTypes
  {
  }

  /** An extension and its lower-cased form give the same content type. */
  lemma ContentTypeOfLowered(extension: string)
    ensures GetContentType(ToLower(extension)) == GetContentType(extension)
  {
    ToLowerIdempotent(extension);
  }

  /** Extensions that differ only in letter case give the same content type. */
  lemma ContentTypeIgnoresCase(a: string, b: string)
    requires SameIgnoringCase(a, b)
    ensures GetContentType(a) == GetContentType(b)
  {
    ToLowerEqualIffSameIgnoringCase(a, b);
  }

  /** The two aliases of the table, in any letter case. */
  lemma ContentTypeAliases(a: string, b: string)
    requires SameIgnoringCase(a, ".JPEG") && SameIgnoringCase(b, ".TIFF")
    ensures GetContentType(a) == "image/jpeg"
    ensures GetContentType(b) == "image/x-tiff"
  {
    ToLowerEqualIffSameIgnoringCase(a, ".JPEG");
    ToLowerEqualIffSameIgnoringCase(b, ".TIFF");
    assert ToLower(".JPEG") == ".jpeg";
    assert ToLower(".TIFF") == ".tiff";
  }

  /** The table's content types are already lower case. */
  lemma KnownContentTypesAreLower(ct: string)
    requires ct in KnownContentTypes
    ensures ToLower(ct) == ct
  {
    assert IsLower(ct);
    ToLowerFixesLower(ct);
  }

  /** The content types the encoder has a format of its own for. */
  const RasterFormats: map<string, EncodedImageFormat> := map[
    "image/bmp" := Bmp,
    "image/jpeg" := Jpeg,
    "image/gif" := Gif,
    "image/png" := Png
  ]

  /**
   * ExcelPicture.GetImageFormat: case-insensitive; only the four raster types
   * get their own format, everything else (metafiles, TIFF, unknown) is Jpeg.
   */
  function GetImageFormat(contentType: string): (r: EncodedImageFormat)
    ensures r in {Bmp, Jpeg, Gif, Png}
  {
    match ToLower(contentType)
    case "image/bmp" => Bmp
    case "image/jpeg" => Jpeg
    case "image/gif" => Gif
    case "image/png" => Png
    case _ => Jpeg
  }

  /** The switch agrees with the table of raster formats; everything else is Jpeg. */
  lemma ImageFormatTable(contentType: string)
    ensures ToLower(contentType) in RasterFormats ==> GetImageFormat(contentType) == RasterFormats[ToLower(contentType)]
    ensures ToLower(contentType) !in RasterFormats ==> GetImageFormat(contentType) == Jpeg
  {
  }

  /** The extensions whose content type maps back to a raster format of its own. */
  const ExtensionFormats: map<string, EncodedImageFormat> := map[
    ".bmp" := Bmp,
    ".gif" := Gif,
    ".png" := Png,
    ".jpg" := Jpeg,
    ".jpeg" := Jpeg
  ]

  /**
   * Composing the two tables: .bmp, .gif, .png, .jpg and .jpeg (any case) give
   * their own format; every other extension, listed or not, ends at Jpeg.
   */
  lemma FormatOfExtension(extension: string)
    ensures ToLower(extension) in ExtensionFormats ==>
              GetImageFormat(GetContentType(extension)) == ExtensionFormats[ToLower(extension)]
    ensures ToLower(extension) !in ExtensionFormats ==>
              GetImageFormat(GetContentType(extension)) == Jpeg
  {
    KnownContentTypesAreLower(GetContentType(extension));
  }
}
