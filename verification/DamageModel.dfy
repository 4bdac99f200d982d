/** The shared framebuffer of one remote-desktop session on iOS, its damage queue, and the texture a
    view keeps of it (`packages/react-native-remote-desktop/ios/RemoteDesktopSessionManager.swift`,
    `RemoteDesktopMetalView.swift`), as functions on values: one function per lock section. */
module DamageModel {
  import opened Words
  import opened Raster
  import opened Pixels

  const MAX_DAMAGE_RECTS := 64
  const MAX_PIXELS := 16_777_216

  datatype DamageRect = DamageRect(x: U16, y: U16, width: U16, height: U16)

  /** An image with the allocation generation it belongs to; the framebuffer and the texture are both one. */
  datatype Frame = NoFrame | Frame(width: U16, height: U16, generation: nat, pixels: seq<Byte>)

  datatype Batch = Batch(full: bool, rects: seq<DamageRect>)

  datatype Damage = Damage(queue: seq<DamageRect>, full: bool)

  ghost predicate GoodFrame(f: Frame) {
    f.Frame? ==> 0 < f.width && 0 < f.height && |f.pixels| == f.height * (f.width * BYTES_PER_PIXEL)
  }

  predicate SameShape(a: Frame, b: Frame) {
    a.Frame? && b.Frame? && a.width == b.width && a.height == b.height && a.generation == b.generation
  }

  predicate InBounds(f: Frame, r: DamageRect) {
    f.Frame? && r.x + r.width <= f.width && r.y + r.height <= f.height
  }

  /** The pixel of byte `i` lies in the rectangle. */
  predicate Hits(f: Frame, r: DamageRect, i: nat)
    requires f.Frame? && 0 < f.width
  {
    Within(PixelX(f.width, i), PixelY(f.width, i), r.x, r.y, r.width, r.height)
  }

  lemma HitsIsInside(f: Frame, r: DamageRect, i: nat)
    requires f.Frame? && 0 < f.width
    ensures Hits(f, r, i) <==> Inside(i, f.width * BYTES_PER_PIXEL, r.x * BYTES_PER_PIXEL, r.y, r.width * BYTES_PER_PIXEL, r.height)
  {
    InsideIsWithin(f.width, r.x, r.y, r.width, r.height, i);
  }

  lemma InBoundsFits(f: Frame, r: DamageRect)
    requires GoodFrame(f) && InBounds(f, r)
    ensures Fits(|f.pixels|, f.width * BYTES_PER_PIXEL, r.x * BYTES_PER_PIXEL, r.y, r.width * BYTES_PER_PIXEL, r.height)
  {
    MulLe(r.y + r.height, f.height, f.width * BYTES_PER_PIXEL);
  }

  // ---------------------------------------------------------------- the worker's lock sections

  predicate Allocatable(width: U16, height: U16) {
    0 < width && 0 < height && width * height <= MAX_PIXELS
  }

  /** Under the framebuffer lock: a new shape gets a blank image and the next generation. */
  function Allocated(fb: Frame, width: U16, height: U16): Frame {
    if fb.Frame? && fb.width == width && fb.height == height then fb
    else Frame(width, height, (if fb.Frame? then fb.generation else 0) + 1, seq(height * (width * BYTES_PER_PIXEL), _ => 0))
  }

  /** Whether a frame from the core is accepted. */
  predicate Accepts(fb: Frame, r: DamageRect, bytes: seq<Byte>) {
    InBounds(fb, r) && r.height * (r.width * BYTES_PER_PIXEL) <= |bytes|
  }

  lemma AcceptedFits(r: DamageRect, bytes: seq<Byte>)
    requires r.height * (r.width * BYTES_PER_PIXEL) <= |bytes| && 0 < r.width
    ensures Fits(|bytes|, r.width * BYTES_PER_PIXEL, 0, 0, r.width * BYTES_PER_PIXEL, r.height)
  {
  }

  /** Under the framebuffer lock: the accepted rectangle is overwritten, row by row. */
  function CopiedFrame(fb: Frame, r: DamageRect, bytes: seq<Byte>): (after: Frame)
    requires GoodFrame(fb) && Accepts(fb, r, bytes)
    ensures SameShape(fb, after)
  {
    if r.width == 0 then fb
    else
      InBoundsFits(fb, r);
      AcceptedFits(r, bytes);
      fb.(pixels := Blit(fb.pixels, fb.width * BYTES_PER_PIXEL, r.x * BYTES_PER_PIXEL, r.y, r.width * BYTES_PER_PIXEL, r.height, bytes, r.width * BYTES_PER_PIXEL, 0, 0))
  }

  /** A frame of another shape is all zero and of a new generation; of the same shape it is kept. */
  lemma AllocatedMeans(fb: Frame, width: U16, height: U16)
    requires GoodFrame(fb) && Allocatable(width, height)
    ensures var after := Allocated(fb, width, height);
            && after.Frame? && GoodFrame(after) && after.width == width && after.height == height
            && if fb.Frame? && fb.width == width && fb.height == height then after == fb
               else (fb.Frame? ==> after.generation != fb.generation) && forall i :: 0 <= i < |after.pixels| ==> after.pixels[i] == 0
  {
  }

  /** An accepted copy, byte by byte: inside the rectangle the pixel of the payload at the same offset
      from its corner, outside the byte that was there. */
  lemma CopiedAt(fb: Frame, r: DamageRect, bytes: seq<Byte>, i: nat)
    requires GoodFrame(fb) && Accepts(fb, r, bytes) && i < |fb.pixels|
    ensures |CopiedFrame(fb, r, bytes).pixels| == |fb.pixels|
    ensures var after := CopiedFrame(fb, r, bytes).pixels[i];
            if Hits(fb, r, i) then
              var from := IndexOf(r.width, PixelX(fb.width, i) - r.x, PixelY(fb.width, i) - r.y, Channel(fb.width, i));
              0 <= from < |bytes| && after == bytes[from]
            else after == fb.pixels[i]
  {
    HitsIsInside(fb, r, i);
    if r.width != 0 {
      InBoundsFits(fb, r);
      AcceptedFits(r, bytes);
      if Hits(fb, r, i) {
        FitsAt(|bytes|, r.width * BYTES_PER_PIXEL, 0, 0, r.width * BYTES_PER_PIXEL, r.height,
               i / (fb.width * BYTES_PER_PIXEL) - r.y, i % (fb.width * BYTES_PER_PIXEL) - r.x * BYTES_PER_PIXEL);
      }
    }
  }

  // ---------------------------------------------------------------- the damage lock sections

  const FULL_DAMAGE := Damage([], true)

  function Pushed(d: Damage, r: DamageRect): Damage {
    if d.full then d
    else if |d.queue| >= MAX_DAMAGE_RECTS then FULL_DAMAGE
    else d.(queue := d.queue + [r])
  }

  function Drained(d: Damage): (Damage, Option<Batch>) {
    if d.full then (Damage([], false), Some(Batch(true, [])))
    else if d.queue == [] then (d, None)
    else (Damage([], false), Some(Batch(false, d.queue)))
  }

  // ---------------------------------------------------------------- the view's lock section

  function WholeFrame(fb: Frame): DamageRect
    requires fb.Frame?
  {
    DamageRect(0, 0, fb.width, fb.height)
  }

  /** One `texture.replace`; a rectangle that is empty or does not fit is skipped. */
  function Replaced(tex: Frame, fb: Frame, r: DamageRect): (after: Frame)
    requires GoodFrame(fb) && GoodFrame(tex) && SameShape(tex, fb)
    ensures SameShape(after, fb) && GoodFrame(after)
  {
    if r.width == 0 || r.height == 0 || !InBounds(fb, r) then tex
    else
      InBoundsFits(fb, r);
      InBoundsFits(tex, r);
      tex.(pixels := Blit(tex.pixels, tex.width * BYTES_PER_PIXEL, r.x * BYTES_PER_PIXEL, r.y, r.width * BYTES_PER_PIXEL, r.height,
                          fb.pixels, fb.width * BYTES_PER_PIXEL, r.x * BYTES_PER_PIXEL, r.y))
  }

  function ReplacedAll(tex: Frame, fb: Frame, rects: seq<DamageRect>): (after: Frame)
    requires GoodFrame(fb) && GoodFrame(tex) && SameShape(tex, fb)
    ensures SameShape(after, fb) && GoodFrame(after)
    decreases |rects|
  {
    if rects == [] then tex
    else Replaced(ReplacedAll(tex, fb, rects[..|rects| - 1]), fb, rects[|rects| - 1])
  }

  /** A replaced rectangle shows the framebuffer; the rest of the texture is as it was. */
  lemma ReplacedAt(tex: Frame, fb: Frame, r: DamageRect, i: nat)
    requires GoodFrame(fb) && GoodFrame(tex) && SameShape(tex, fb) && i < |fb.pixels|
    ensures |Replaced(tex, fb, r).pixels| == |fb.pixels| == |tex.pixels|
    ensures Replaced(tex, fb, r).pixels[i] == if InBounds(fb, r) && Hits(fb, r, i) then fb.pixels[i] else tex.pixels[i]
  {
    HitsIsInside(fb, r, i);
    if r.width != 0 && r.height != 0 && InBounds(fb, r) {
      InBoundsFits(fb, r);
      BlitInPlace(tex.pixels, fb.pixels, fb.width * BYTES_PER_PIXEL, r.x * BYTES_PER_PIXEL, r.y, r.width * BYTES_PER_PIXEL, r.height);
    }
  }

  ghost predicate HitByAny(fb: Frame, rects: seq<DamageRect>, i: nat)
    requires fb.Frame? && 0 < fb.width
  {
    exists k :: 0 <= k < |rects| && InBounds(fb, rects[k]) && Hits(fb, rects[k], i)
  }

  lemma {:induction false} ReplacedAllAt(tex: Frame, fb: Frame, rects: seq<DamageRect>, i: nat)
    requires GoodFrame(fb) && GoodFrame(tex) && SameShape(tex, fb) && i < |fb.pixels|
    ensures |ReplacedAll(tex, fb, rects).pixels| == |fb.pixels| == |tex.pixels|
    ensures ReplacedAll(tex, fb, rects).pixels[i] == if HitByAny(fb, rects, i) then fb.pixels[i] else tex.pixels[i]
    decreases |rects|
  {
    if rects != [] {
      var init, last := rects[..|rects| - 1], rects[|rects| - 1];
      ReplacedAllAt(tex, fb, init, i);
      ReplacedAt(ReplacedAll(tex, fb, init), fb, last, i);
      if HitByAny(fb, init, i) {
        var k :| 0 <= k < |init| && InBounds(fb, init[k]) && Hits(fb, init[k], i);
        assert rects[k] == init[k];
      }
      if HitByAny(fb, rects, i) {
        var k :| 0 <= k < |rects| && InBounds(fb, rects[k]) && Hits(fb, rects[k], i);
        assert k < |init| ==> init[k] == rects[k];
      }
    }
  }

  lemma WholeFrameHits(fb: Frame, i: nat)
    requires fb.Frame? && GoodFrame(fb) && i < |fb.pixels|
    ensures InBounds(fb, WholeFrame(fb)) && Hits(fb, WholeFrame(fb), i)
  {
    PixelOfByte(fb.width, fb.height, i);
  }

  /** The texture after an upload; `blank` is whatever a newly created texture contains. */
  function Uploaded(tex: Frame, fb: Frame, batch: Batch, blank: seq<Byte>): Frame
    requires GoodFrame(fb) && GoodFrame(tex) && fb.Frame?
    requires |blank| == |fb.pixels|
  {
    var changed := !SameShape(tex, fb);
    var target := if changed then fb.(pixels := blank) else tex;
    ReplacedAll(target, fb, if batch.full || changed then [WholeFrame(fb)] else batch.rects)
  }

  /** A full upload makes the texture equal to the framebuffer. */
  lemma FullUpload(tex: Frame, fb: Frame, batch: Batch, blank: seq<Byte>)
    requires GoodFrame(fb) && GoodFrame(tex) && fb.Frame? && |blank| == |fb.pixels|
    requires batch.full || !SameShape(tex, fb)
    ensures Uploaded(tex, fb, batch, blank) == fb
  {
    var after := Uploaded(tex, fb, batch, blank);
    var target := if !SameShape(tex, fb) then fb.(pixels := blank) else tex;
    forall i | 0 <= i < |fb.pixels| ensures |after.pixels| == |fb.pixels| && after.pixels[i] == fb.pixels[i] {
      WholeFrameHits(fb, i);
      ReplacedAllAt(target, fb, [WholeFrame(fb)], i);
      assert [WholeFrame(fb)][0] == WholeFrame(fb);
    }
    assert after.pixels == fb.pixels;
  }
}
