/** Size normalisation of `FileProcessor::resizeImage`: the integer
    arithmetic on width and height. The pixels themselves are resampled by
    Qt, which this model takes as an oracle `scale`. */
module Resize {
  import opened Arithmetic

  /** A width/height pair, as `QSize`. */
  datatype Size = Size(width: nat, height: nat)

  /** A decoded raster. `NullImage` is `QImage::isNull()`; a raster's pixel
      data is abstracted into an opaque fingerprint. */
  datatype Image = NullImage | Raster(width: nat, height: nat, pixels: nat)
  {
    /** `QImage::size()`: (0, 0) for the null image. */
    function Dimensions(): Size
    {
      if NullImage? then Size(0, 0) else Size(width, height)
    }
  }

  /** `QSize(w, h).scaled(QSize(bw, bh), Qt::KeepAspectRatio)`: the largest
      size of the same aspect that fits the bound, in truncating integer
      arithmetic; a size with a zero side becomes the bound itself. */
  function ScaleToFit(w: nat, h: nat, bw: nat, bh: nat): Size
  {
    if w == 0 || h == 0 then Size(bw, bh)
    else
      var rw := bh * w / h;
      if rw <= bw then Size(rw, bh) else Size(bw, bw * h / w)
  }

  /** The image already satisfies every positive limit. */
  predicate Fits(s: Size, maxWidth: int, maxHeight: int)
  {
    (maxWidth <= 0 || s.width <= maxWidth) && (maxHeight <= 0 || s.height <= maxHeight)
  }

  /** The width limit applied to a size that exceeds it. */
  function FitWidth(s: Size, maxWidth: int): (t: Size)
    ensures t.width <= s.width && t.height <= s.height
    ensures maxWidth > 0 ==> t.width <= maxWidth
    ensures maxWidth <= 0 || s.width <= maxWidth ==> t == s
  {
    if maxWidth > 0 && s.width > maxWidth then
      var t := ScaleToFit(s.width, s.height, maxWidth, s.height);
      assert t.height <= s.height by {
        if s.height > 0 {
          assert maxWidth * s.height <= s.width * s.height;
          DivAtMost(maxWidth * s.height, s.width, s.height);
        }
      }
      t
    else s
  }

  /** The height limit applied to a size that exceeds it. */
  function FitHeight(s: Size, maxHeight: int): (t: Size)
    ensures t.width <= s.width && t.height <= s.height
    ensures maxHeight > 0 ==> t.height <= maxHeight
    ensures maxHeight <= 0 || s.height <= maxHeight ==> t == s
  {
    if maxHeight > 0 && s.height > maxHeight then
      var t := ScaleToFit(s.width, s.height, s.width, maxHeight);
      assert t.width <= s.width && t.height <= maxHeight by {
        if s.width > 0 {
          assert maxHeight * s.width <= s.height * s.width;
          DivAtMost(maxHeight * s.width, s.height, s.width);
        }
      }
      t
    else s
  }

  /** The size `resizeImage` asks Qt for: the width limit first, then the
      height limit. It never grows the image, meets every positive limit, and
      equals the original size exactly when the original already fits. */
  function TargetSize(s: Size, maxWidth: int, maxHeight: int): (t: Size)
    ensures t.width <= s.width && t.height <= s.height
    ensures maxWidth > 0 ==> t.width <= maxWidth
    ensures maxHeight > 0 ==> t.height <= maxHeight
    ensures t == s <==> Fits(s, maxWidth, maxHeight)
  {
    FitHeight(FitWidth(s, maxWidth), maxHeight)
  }

  /** `resizeImage(image, maxWidth, maxHeight)` with Qt's smooth rescaling
      supplied as `scale`: an image that breaks a positive limit is always
      rescaled to the target size; every other image comes back as is. */
  function ResizeImage(image: Image, maxWidth: int, maxHeight: int,
                       scale: (Image, Size) -> Image): (r: Image)
    ensures image.NullImage? ==> r == image
    ensures maxWidth <= 0 && maxHeight <= 0 ==> r == image
    ensures Fits(image.Dimensions(), maxWidth, maxHeight) ==> r == image
    ensures r != image ==>
              && r == scale(image, TargetSize(image.Dimensions(), maxWidth, maxHeight))
              && TargetSize(image.Dimensions(), maxWidth, maxHeight) != image.Dimensions()
    ensures !image.NullImage? && !Fits(image.Dimensions(), maxWidth, maxHeight) ==>
              r == scale(image, TargetSize(image.Dimensions(), maxWidth, maxHeight))
  {
    if image.NullImage? then image
    else if maxWidth <= 0 && maxHeight <= 0 then image
    else
      var target := TargetSize(image.Dimensions(), maxWidth, maxHeight);
      if target == image.Dimensions() then image else scale(image, target)
  }

  /** Qt's rescaling never exceeds the size it is asked for. */
  ghost predicate WithinRequest(scale: (Image, Size) -> Image)
  {
    forall i, t :: scale(i, t).Dimensions().width <= t.width && scale(i, t).Dimensions().height <= t.height
  }

  /** With a scaler that stays within the requested size, the normalised
      image meets every positive limit and is never larger than the input. */
  lemma ResizedFits(image: Image, maxWidth: int, maxHeight: int, scale: (Image, Size) -> Image)
    requires WithinRequest(scale)
    ensures var d := ResizeImage(image, maxWidth, maxHeight, scale).Dimensions();
            && Fits(d, maxWidth, maxHeight)
            && d.width <= image.Dimensions().width && d.height <= image.Dimensions().height
  {
    var r := ResizeImage(image, maxWidth, maxHeight, scale);
    if r != image {
      var t := TargetSize(image.Dimensions(), maxWidth, maxHeight);
      assert r == scale(image, t);
      assert r.Dimensions().width <= t.width && r.Dimensions().height <= t.height;
    }
  }

  /** The guard `processImageFile` and `processPDFFile` put around the call. */
  function ResizeIfNeeded(image: Image, maxWidth: int, maxHeight: int,
                          scale: (Image, Size) -> Image): Image
  {
    var d := image.Dimensions();
    if (maxWidth > 0 || maxHeight > 0) && (d.width > maxWidth || d.height > maxHeight)
    then ResizeImage(image, maxWidth, maxHeight, scale)
    else image
  }

  /** The callers' guard changes nothing: `resizeImage` already returns its
      input whenever the guard is false. */
  lemma GuardIsRedundant(image: Image, maxWidth: int, maxHeight: int,
                         scale: (Image, Size) -> Image)
    ensures ResizeIfNeeded(image, maxWidth, maxHeight, scale)
         == ResizeImage(image, maxWidth, maxHeight, scale)
  {
  }

  /** With no limits (the default 0, 0) normalisation is the identity. */
  lemma NoLimitsIsIdentity(image: Image, scale: (Image, Size) -> Image)
    ensures ResizeIfNeeded(image, 0, 0, scale) == image
  {
  }
}
