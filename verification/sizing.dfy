/**
 * ExcelPicture.SetSize on a picture that has an image: each side becomes the
 * image's side times `Percent / 100`, computed in System.Decimal (exact for
 * these operands) and cast back to a 32-bit int, which truncates toward zero
 * and throws OverflowException when the value does not fit.
 */
module Sizing {
  import opened Options
  import opened Skia

  const Int32Min: int := -0x8000_0000
  const Int32Max: int := 0x7FFF_FFFF

  /** A C# `int`. */
  type Int32 = x: int | -0x8000_0000 <= x <= 0x7FFF_FFFF

  predicate InInt32(x: int)
  {
    Int32Min <= x <= Int32Max
  }

  /** `x / 100` rounded toward zero, as the decimal-to-int cast does. */
  function TruncDiv100(x: int): (r: int)
    ensures x >= 0 ==> 0 <= r && 100 * r <= x < 100 * r + 100
    ensures x < 0 ==> r <= 0 && 100 * r - 100 < x <= 100 * r
  {
    if x >= 0 then x / 100 else -((-x) / 100)
  }

  /** Truncating division by 100 keeps the order of its arguments. */
  lemma TruncDiv100Monotone(x: int, y: int)
    requires x <= y
    ensures TruncDiv100(x) <= TruncDiv100(y)
  {
  }

  /** One side scaled to `percent` percent: `(int)(side * ((decimal)percent / 100))`. */
  function Scale(side: int, percent: int): (r: int)
    ensures side >= 0 && percent >= 0 ==> 0 <= 100 * r <= side * percent < 100 * r + 100
    ensures side >= 0 && percent < 0 ==> r <= 0
  {
    TruncDiv100(side * percent)
  }

  /** At 100 percent a side keeps its length. */
  lemma ScaleIdentity(side: int)
    ensures Scale(side, 100) == side
  {
  }

  /** Between 0 and 100 percent a side neither grows nor turns negative. */
  lemma ScaleWithinOriginal(side: int, percent: int)
    requires side >= 0 && 0 <= percent <= 100
    ensures 0 <= Scale(side, percent) <= side
  {
    assert side * percent <= side * 100 by {
      assert side * (100 - percent) >= 0;
    }
    TruncDiv100Monotone(side * percent, side * 100);
  }

  /** A larger percentage never gives a shorter side. */
  lemma ScaleMonotone(side: int, p: int, q: int)
    requires side >= 0 && p <= q
    ensures Scale(side, p) <= Scale(side, q)
  {
    assert side * p <= side * q by {
      assert side * (q - p) >= 0;
    }
    TruncDiv100Monotone(side * p, side * q);
  }

  /**
   * The picture's size after SetSize: `ok` is false when a cast overflows, and
   * the sizes are then those the method had already stored when it threw.
   */
  datatype Resized = Resized(ok: bool, width: int, height: int)

  /**
   * SetSize(percent) on a picture of size `width` x `height` showing `image`.
   * Without an image the base class's SetSize runs, which is not part of this
   * model: the stored size is left as it is.
   */
  function Resize(image: Option<RawImage>, width: int, height: int, percent: Int32): (r: Resized)
    ensures image.None? ==> r == Resized(true, width, height)
    ensures image.Some? ==>
              var w := Scale(image.value.width, percent);
              var h := Scale(image.value.height, percent);
              && (r.ok <==> InInt32(w) && InInt32(h))
              && (r.ok ==> r.width == w && r.height == h)
              && (!InInt32(w) ==> r.width == image.value.width && r.height == image.value.height)
              && (InInt32(w) && !InInt32(h) ==> r.width == w && r.height == image.value.height)
  {
    match image
    case None => Resized(true, width, height)
    case Some(img) =>
      var w := Scale(img.width, percent);
      var h := Scale(img.height, percent);
      if !InInt32(w) then Resized(false, img.width, img.height)
      else if !InInt32(h) then Resized(false, w, img.height)
      else Resized(true, w, h)
  }

  /** Shrinking (0 to 100 percent) never overflows and never enlarges the picture. */
  lemma ResizeShrinkSucceeds(image: RawImage, width: int, height: int, percent: Int32)
    requires 0 <= percent <= 100
    ensures var r := Resize(Some(image), width, height, percent);
            && r.ok
            && 0 <= r.width <= image.width
            && 0 <= r.height <= image.height
  {
    ScaleWithinOriginal(image.width, percent);
    ScaleWithinOriginal(image.height, percent);
  }

  /** At 100 percent the picture takes the image's own size, whatever size it had. */
  lemma ResizeFullSize(image: RawImage, width: int, height: int)
    ensures Resize(Some(image), width, height, 100) == Resized(true, image.width, image.height)
  {
    ScaleIdentity(image.width);
    ScaleIdentity(image.height);
  }

  /** A successful resize is measured from the image, never from the current size. */
  lemma ResizeFromImage(image: RawImage, w1: int, h1: int, w2: int, h2: int, percent: Int32)
    ensures Resize(Some(image), w1, h1, percent) == Resize(Some(image), w2, h2, percent)
  {
  }
}
