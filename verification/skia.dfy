/**
 * The types that cross the boundary to the SkiaSharp image codec. The codec
 * itself (decoding, encoding, hashing of encoded bytes) is not modelled: its
 * answers reach the model as values of these types.
 */
module Skia {
  /** SkiaSharp's SKEncodedImageFormat: the formats the encoder knows. */
  datatype EncodedImageFormat =
    | Bmp | Gif | Ico | Jpeg | Png | Wbmp | Webp | Pkm | Ktx | Astc | Dng | Heif | Avif

  /** SkiaSharp's SKColorType: the pixel layout of a decoded bitmap. */
  datatype ColorType =
    | Unknown | Alpha8 | Rgb565 | Argb4444 | Rgba8888 | Rgb888x | Bgra8888
    | Rgba1010102 | Rgb101010x | Gray8 | RgbaF16 | RgbaF16Clamped | RgbaF32
    | Rg88 | AlphaF16 | RgF16 | Alpha16 | Rg1616 | Rgba16161616
    | Bgra1010102 | Bgr101010x

  /** A pixel dimension: a positive 32-bit signed integer. */
  type Dim = x: int | 0 < x <= 0x7FFF_FFFF witness 1

  /** A decoded image (SKImage / SKBitmap) as far as the model needs it. */
  datatype RawImage = RawImage(width: Dim, height: Dim, colorType: ColorType)
}
