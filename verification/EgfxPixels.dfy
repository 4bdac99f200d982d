/** What the framebuffer operations mean pixel by pixel, in unbounded integers. */
module EgfxPixels {
  import opened Words
  import opened Raster
  import opened Pixels
  import opened EgfxModel

  /** A pasted box shows the source pixel at the same offset from the source corner. */
  lemma PastedPixel(s: Screen, b: Box, src: seq<Byte>, srcWidth: nat, srcX: nat, srcY: nat, i: nat)
    requires Shaped(s) && Clipped(s, b) && i < |s.pixels|
    requires Fits(|src|, srcWidth * BYTES_PER_PIXEL, srcX * BYTES_PER_PIXEL, srcY, b.width * BYTES_PER_PIXEL, b.height)
    ensures var x, y := PixelX(s.width, i), PixelY(s.width, i);
            if Within(x, y, b.x, b.y, b.width, b.height) then
              var from := IndexOf(srcWidth, srcX + x - b.x, srcY + y - b.y, Channel(s.width, i));
              0 <= from < |src| && Pasted(s, b, src, srcWidth, srcX, srcY)[i] == src[from]
            else Pasted(s, b, src, srcWidth, srcX, srcY)[i] == s.pixels[i]
  {
    InsideIsWithin(s.width, b.x, b.y, b.width, b.height, i);
    if Within(PixelX(s.width, i), PixelY(s.width, i), b.x, b.y, b.width, b.height) {
      FitsAt(|src|, srcWidth * BYTES_PER_PIXEL, srcX * BYTES_PER_PIXEL, srcY, b.width * BYTES_PER_PIXEL, b.height,
             i / Stride(s) - b.y, i % Stride(s) - b.x * BYTES_PER_PIXEL);
    }
  }

  lemma OnScreenAt(s: Screen, i: nat)
    requires Shaped(s) && i < |s.pixels|
    ensures 0 < s.width && OnScreen(s, PixelX(s.width, i), PixelY(s.width, i)) && 0 <= Channel(s.width, i) < BYTES_PER_PIXEL
    ensures i == IndexOf(s.width, PixelX(s.width, i), PixelY(s.width, i), Channel(s.width, i))
  {
    PixelOfByte(s.width, s.height, i);
  }

  // ---------------------------------------------------------------- draws at unbounded coordinates

  /** An unbounded coordinate as the 16-bit arithmetic of the source represents it. */
  function Saturated(x: nat): U16 {
    Min(x, U16_MAX)
  }

  /** Adding a local offset to a saturated origin saturates the true sum. */
  lemma SaturatedSum(origin: nat, local: U16)
    ensures SatAdd(Saturated(origin), local) == Saturated(origin + local)
  {
  }

  /** `ClipIsIntersection` for a true position that may lie beyond 16 bits. */
  lemma ClipAt(s: Screen, x: nat, y: nat, width: U16, height: U16, px: int, py: int)
    requires OnScreen(s, px, py)
    ensures var r := Clip(s, Saturated(x), Saturated(y), width, height);
            && (Within(px, py, x, y, width, height) <==> r.Some? && Within(px, py, r.value.x, r.value.y, r.value.width, r.value.height))
            && (r.Some? ==> r.value.x == x && r.value.y == y)
  {
    ClipIsIntersection(s, Saturated(x), Saturated(y), width, height, px, py);
  }

  /** The pixels after filling the width x height rectangle whose corner is truly at (x, y). */
  ghost function FillAt(s: Screen, x: nat, y: nat, width: U16, height: U16, colour: seq<Byte>): seq<Byte>
    requires Shaped(s) && |colour| == BYTES_PER_PIXEL
  {
    seq(|s.pixels|, i requires 0 <= i < |s.pixels| =>
      OnScreenAt(s, i);
      if Within(PixelX(s.width, i), PixelY(s.width, i), x, y, width, height) then colour[Channel(s.width, i)] else s.pixels[i])
  }

  /** The pixels after copying the rectangle truly at (srcX, srcY) to (dstX, dstY): every destination
      pixel whose source pixel is on the screen takes it from the screen before the copy. */
  ghost function CopyAt(s: Screen, srcX: nat, srcY: nat, width: U16, height: U16, dstX: nat, dstY: nat): seq<Byte>
    requires Shaped(s)
  {
    seq(|s.pixels|, i requires 0 <= i < |s.pixels| =>
      OnScreenAt(s, i);
      var x, y := PixelX(s.width, i), PixelY(s.width, i);
      if Within(x, y, dstX, dstY, width, height) && OnScreen(s, srcX + x - dstX, srcY + y - dstY) then
        ScreenIndex(s, srcX + x - dstX, srcY + y - dstY, Channel(s.width, i));
        s.pixels[IndexOf(s.width, srcX + x - dstX, srcY + y - dstY, Channel(s.width, i))]
      else s.pixels[i])
  }

  /** The pixels after placing a width x height image with its corner truly at (x, y). */
  ghost function PlaceAt(s: Screen, x: nat, y: nat, width: U16, height: U16, image: seq<Byte>): seq<Byte>
    requires Shaped(s) && height * (width * BYTES_PER_PIXEL) <= |image|
  {
    seq(|s.pixels|, i requires 0 <= i < |s.pixels| =>
      OnScreenAt(s, i);
      var px, py := PixelX(s.width, i), PixelY(s.width, i);
      if Within(px, py, x, y, width, height) then
        ImageIndex(width, height, px - x, py - y, Channel(s.width, i));
        image[IndexOf(width, px - x, py - y, Channel(s.width, i))]
      else s.pixels[i])
  }

  lemma ScreenIndex(s: Screen, x: int, y: int, channel: int)
    requires Shaped(s) && OnScreen(s, x, y) && 0 <= channel < BYTES_PER_PIXEL
    ensures 0 <= IndexOf(s.width, x, y, channel) < |s.pixels|
  {
    ImageIndex(s.width, s.height, x, y, channel);
  }

  /** Filling through saturated 16-bit coordinates is filling at the true position. */
  lemma PaintedIsFillAt(s: Screen, x: nat, y: nat, width: U16, height: U16, r: Byte, g: Byte, b: Byte)
    requires Shaped(s)
    ensures Painted(s, Saturated(x), Saturated(y), width, height, r, g, b).pixels == FillAt(s, x, y, width, height, [r, g, b, 0xFF])
  {
    var after := Painted(s, Saturated(x), Saturated(y), width, height, r, g, b).pixels;
    var colour := [r, g, b, 0xFF];
    var want := FillAt(s, x, y, width, height, colour);
    ClipIsClipped(s, Saturated(x), Saturated(y), width, height);
    var clip := Clip(s, Saturated(x), Saturated(y), width, height);
    if clip.Some? {
      SolidFits(colour, clip.value.width, clip.value.height);
    }
    forall i | 0 <= i < |s.pixels| ensures after[i] == want[i] {
      OnScreenAt(s, i);
      var px, py := PixelX(s.width, i), PixelY(s.width, i);
      ClipAt(s, x, y, width, height, px, py);
      if clip.Some? {
        var box := clip.value;
        PastedPixel(s, box, Solid(colour, box.width * box.height), box.width, 0, 0, i);
        if Within(px, py, box.x, box.y, box.width, box.height) {
          var from := IndexOf(box.width, px - box.x, py - box.y, Channel(s.width, i));
          SolidAt(colour, box.width * box.height, from);
          IndexChannel(box.width, px - box.x, py - box.y, Channel(s.width, i));
        }
      }
    }
  }

  /** Copying through saturated coordinates and two clips is copying at the true positions. */
  lemma CopiedIsCopyAt(s: Screen, srcX: nat, srcY: nat, width: U16, height: U16, dstX: nat, dstY: nat)
    requires Shaped(s)
    ensures Copied(s, Saturated(srcX), Saturated(srcY), width, height, Saturated(dstX), Saturated(dstY)).pixels
         == CopyAt(s, srcX, srcY, width, height, dstX, dstY)
  {
    var after := Copied(s, Saturated(srcX), Saturated(srcY), width, height, Saturated(dstX), Saturated(dstY)).pixels;
    var want := CopyAt(s, srcX, srcY, width, height, dstX, dstY);
    var clip := CopyBox(s, Saturated(srcX), Saturated(srcY), width, height, Saturated(dstX), Saturated(dstY));
    if clip.Some? {
      ClippedFits(s, Box(Saturated(srcX), Saturated(srcY), clip.value.width, clip.value.height));
    }
    forall i | 0 <= i < |s.pixels| ensures after[i] == want[i] {
      OnScreenAt(s, i);
      var px, py := PixelX(s.width, i), PixelY(s.width, i);
      CopyClipAt(s, srcX, srcY, width, height, dstX, dstY, px, py);
      if clip.Some? {
        PastedPixel(s, clip.value, s.pixels, s.width, srcX, srcY, i);
      }
    }
  }

  /** The two clips of a copy together: the destination pixels whose source is on the screen. */
  lemma CopyClipAt(s: Screen, srcX: nat, srcY: nat, width: U16, height: U16, dstX: nat, dstY: nat, px: int, py: int)
    requires OnScreen(s, px, py)
    ensures var r := CopyBox(s, Saturated(srcX), Saturated(srcY), width, height, Saturated(dstX), Saturated(dstY));
            && (Within(px, py, dstX, dstY, width, height) && OnScreen(s, srcX + px - dstX, srcY + py - dstY)
                <==> r.Some? && Within(px, py, r.value.x, r.value.y, r.value.width, r.value.height))
            && (r.Some? ==> r.value.x == dstX && r.value.y == dstY && Saturated(srcX) == srcX && Saturated(srcY) == srcY)
  {
  }

  /** Writing a large enough image through saturated coordinates is placing it at the true position; a
      truncated image is refused. */
  lemma WrittenIsPlaceAt(s: Screen, x: nat, y: nat, width: U16, height: U16, image: seq<Byte>)
    requires Shaped(s)
    ensures Written(s, Saturated(x), Saturated(y), width, height, image).pixels
         == if |image| < height * (width * BYTES_PER_PIXEL) then s.pixels else PlaceAt(s, x, y, width, height, image)
  {
    if |image| >= height * (width * BYTES_PER_PIXEL) {
      WrittenPastes(s, Saturated(x), Saturated(y), width, height, image);
      PasteIsPlace(s, x, y, width, height, image, Written(s, Saturated(x), Saturated(y), width, height, image).pixels);
    }
  }

  lemma WrittenPastes(s: Screen, x: U16, y: U16, width: U16, height: U16, image: seq<Byte>)
    requires Shaped(s) && height * (width * BYTES_PER_PIXEL) <= |image|
    ensures match Clip(s, x, y, width, height)
            case None => Written(s, x, y, width, height, image).pixels == s.pixels
            case Some(b) =>
              && Fits(|image|, width * BYTES_PER_PIXEL, 0, 0, b.width * BYTES_PER_PIXEL, b.height)
              && Written(s, x, y, width, height, image).pixels == Pasted(s, b, image, width, 0, 0)
  {
    var r := Clip(s, x, y, width, height);
    if r.Some? {
      CornerFits(|image|, width, height, r.value.width, r.value.height);
    }
  }

  lemma PasteIsPlace(s: Screen, x: nat, y: nat, width: U16, height: U16, image: seq<Byte>, after: seq<Byte>)
    requires Shaped(s) && height * (width * BYTES_PER_PIXEL) <= |image|
    requires match Clip(s, Saturated(x), Saturated(y), width, height)
             case None => after == s.pixels
             case Some(b) =>
               && Fits(|image|, width * BYTES_PER_PIXEL, 0, 0, b.width * BYTES_PER_PIXEL, b.height)
               && after == Pasted(s, b, image, width, 0, 0)
    ensures after == PlaceAt(s, x, y, width, height, image)
  {
    var want := PlaceAt(s, x, y, width, height, image);
    ClipIsClipped(s, Saturated(x), Saturated(y), width, height);
    var clip := Clip(s, Saturated(x), Saturated(y), width, height);
    forall i | 0 <= i < |s.pixels| ensures after[i] == want[i] {
      OnScreenAt(s, i);
      ClipAt(s, x, y, width, height, PixelX(s.width, i), PixelY(s.width, i));
      if clip.Some? {
        PastedPixel(s, clip.value, image, width, 0, 0, i);
      }
    }
  }

  /** Restoring a known slot through saturated coordinates places its tile at the true position. */
  lemma RestoredIsPlaceAt(s: Screen, slot: U16, x: nat, y: nat)
    requires Valid(s) && slot in s.cache
    ensures var tile := s.cache[slot];
            Restored(s, slot, Saturated(x), Saturated(y)).0.pixels == PlaceAt(s, x, y, tile.width, tile.height, tile.pixels)
  {
    var tile := s.cache[slot];
    var clip := Clip(s, Saturated(x), Saturated(y), tile.width, tile.height);
    ClipIsClipped(s, Saturated(x), Saturated(y), tile.width, tile.height);
    if clip.Some? {
      CornerFits(|tile.pixels|, tile.width, tile.height, clip.value.width, clip.value.height);
    }
    PasteIsPlace(s, x, y, tile.width, tile.height, tile.pixels, Restored(s, slot, Saturated(x), Saturated(y)).0.pixels);
  }
}
