/**
 * ImageCompat.GetImageAsByteArray: choose an encoder format from a bitmap's
 * colour type and encode at quality 100. The encoding itself belongs to the
 * codec; the model returns the request handed to it.
 */
module ImageCompat {
  import opened Skia

  /** What GetImageAsByteArray asks the encoder for. */
  datatype EncodeRequest = EncodeRequest(format: EncodedImageFormat, quality: int)

  const EncodeQuality: int := 100

  /** The colour-type switch: Bgra8888 -> Png, Alpha8 -> Bmp, anything else -> Jpeg. */
  function FormatForColorType(colorType: ColorType): (f: EncodedImageFormat)
    ensures f == Png <==> colorType == Bgra8888
    ensures f == Bmp <==> colorType == Alpha8
    ensures f == Jpeg <==> colorType != Bgra8888 && colorType != Alpha8
  {
    match colorType
    case Bgra8888 => Png
    case Alpha8 => Bmp
    case _ => Jpeg
  }

  /** The encode call GetImageAsByteArray makes for a bitmap. */
  function GetImageAsByteArray(bitmap: RawImage): (req: EncodeRequest)
    ensures req.format in {Png, Bmp, Jpeg}
    ensures req.quality == 100
    ensures req.format == FormatForColorType(bitmap.colorType)
  {
    EncodeRequest(FormatForColorType(bitmap.colorType), EncodeQuality)
  }

  /** The request depends on the colour type alone, not on size or pixels. */
  lemma RequestDependsOnlyOnColorType(a: RawImage, b: RawImage)
    ensures GetImageAsByteArray(a) == GetImageAsByteArray(b) <==> FormatForColorType(a.colorType) == FormatForColorType(b.colorType)
  {
  }
}
