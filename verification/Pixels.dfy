/** Pixels of row-major RGBA images: four bytes each, `width` of them a row. */
module Pixels {
  import opened Raster

  const BYTES_PER_PIXEL := 4

  /** Pixel coordinates and channel of the byte at flat index `i` of an image `width` pixels wide. */
  function PixelX(width: nat, i: nat): int
    requires 0 < width
  {
    (i % (width * BYTES_PER_PIXEL)) / BYTES_PER_PIXEL
  }

  function PixelY(width: nat, i: nat): int
    requires 0 < width
  {
    i / (width * BYTES_PER_PIXEL)
  }

  function Channel(width: nat, i: nat): int
    requires 0 < width
  {
    (i % (width * BYTES_PER_PIXEL)) % BYTES_PER_PIXEL
  }

  /** Flat index of a channel of pixel (x, y) in an image of `width` pixels a row. */
  function IndexOf(width: int, x: int, y: int, channel: int): int {
    y * (width * BYTES_PER_PIXEL) + x * BYTES_PER_PIXEL + channel
  }

  /** Pixel (px, py) lies in the width x height rectangle at (x, y), in unbounded integers. */
  predicate Within(px: int, py: int, x: int, y: int, width: int, height: int) {
    x <= px < x + width && y <= py < y + height
  }

  /** A byte index lies in a rectangle of pixels exactly when its pixel does. */
  lemma InsideIsWithin(imageWidth: nat, x: nat, y: nat, width: nat, height: nat, i: nat)
    requires 0 < imageWidth
    ensures Inside(i, imageWidth * BYTES_PER_PIXEL, x * BYTES_PER_PIXEL, y, width * BYTES_PER_PIXEL, height)
       <==> Within(PixelX(imageWidth, i), PixelY(imageWidth, i), x, y, width, height)
  {
  }

  lemma ImageIndex(width: nat, height: nat, x: nat, y: nat, channel: nat)
    requires x < width && y < height && channel < BYTES_PER_PIXEL
    ensures 0 <= IndexOf(width, x, y, channel) < height * (width * BYTES_PER_PIXEL)
  {
    IndexInside(y, x * BYTES_PER_PIXEL + channel, width * BYTES_PER_PIXEL, height);
  }

  lemma IndexChannel(width: nat, x: int, y: int, channel: int)
    requires 0 <= channel < BYTES_PER_PIXEL
    ensures IndexOf(width, x, y, channel) % BYTES_PER_PIXEL == channel
  {
    assert IndexOf(width, x, y, channel) == (y * width + x) * BYTES_PER_PIXEL + channel;
  }

  /** Every byte of an image lies in a pixel of the image. */
  lemma PixelOfByte(width: nat, height: nat, i: nat)
    requires i < height * (width * BYTES_PER_PIXEL)
    ensures 0 < width
    ensures 0 <= PixelX(width, i) < width && 0 <= PixelY(width, i) < height && 0 <= Channel(width, i) < BYTES_PER_PIXEL
    ensures i == IndexOf(width, PixelX(width, i), PixelY(width, i), Channel(width, i))
  {
    RowOf(i, width * BYTES_PER_PIXEL);
    if i / (width * BYTES_PER_PIXEL) >= height {
      MulLe(height, i / (width * BYTES_PER_PIXEL), width * BYTES_PER_PIXEL);
    }
  }
}
